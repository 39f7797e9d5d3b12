/** Fair allocation: what runs of batches and single picks hand out while a domain's candidates stay fixed. */
module Allocation {
  import opened Lists
  import opened Records
  import opened Rotation
  import opened PoolSpec
  import opened Filing
  import opened Refresh

  /** The addresses an operation takes from the rotation of domain d; reserved handouts take none. */
  function Allocated(e: Event, d: Domain): seq<Pick> {
    match e
    case Batch(d', _, _, _, picks) => if d' == d && picks.Some? then picks.value else []
    case Next(rq, pick, via) =>
      if rq.domain != d then [] else (
        match via
        case FromReserve => []
        case CutBatch(batch) => batch
        case _ => if pick.Some? then [pick.value] else [])
    case _ => []
  }

  function AllAllocated(es: seq<Event>, d: Domain): seq<Pick> {
    if es == [] then [] else AllAllocated(es[..|es| - 1], d) + Allocated(es[|es| - 1], d)
  }

  /** The parts of a record its candidates are drawn from; the whitelist is not one of them. */
  ghost predicate SameCandidates(a: Record, b: Record) {
    a.v4 == b.v4 && a.v6 == b.v6 && a.black == b.black
  }

  ghost predicate SameTurn(a: Record, b: Record, env: Env) {
    var n := |Available(a, env)|;
    n > 0 ==> a.next4 % n == b.next4 % n
  }

  /**
   * The step leaves d's candidates as they are, selects for d, if it does, under flags env, and, if it saves a
   * resolution of d, does not upset the rotation. ReportKeepsCandidatesExactly and SaveIsSteadyExactly say which
   * reports and saves qualify; latency samples and everything about other domains always do.
   */
  ghost predicate Steady(p: Pool, e: Event, q: Pool, d: Domain, env: Env) {
    && d in p.records && d in q.records && SameCandidates(p.records[d], q.records[d])
    && match e
       case Save(d', _) => d' == d ==> SameTurn(p.records[d], q.records[d], env)
       case Batch(d', _, e', _, _) => d' == d ==> e' == env
       case Next(rq, _, _) => rq.domain == d ==> rq.env1 == env && rq.env2 == env
       case _ => true
  }

  ghost predicate SteadyRun(s: seq<Pool>, es: seq<Event>, d: Domain, env: Env) {
    Run(s, es) && (forall j :: 0 <= j < |es| ==> Steady(s[j], es[j], s[j + 1], d, env))
  }

  /** A report leaves the candidates alone exactly when the address is listed and its verdict is not news. */
  lemma ReportKeepsCandidatesExactly(r: Record, ip: Ip, status: int)
    ensures SameCandidates(r, Reported(r, ip, status)) <==>
      && (if ip.V6? then ip in r.v6 else ip in r.v4)
      && (status == 403 ==> ip in r.black)
      && (status == 200 ==> ip !in r.black)
  {
  }

  /** A save that names no index is steady exactly when it finds nothing new and keeps the next pick. */
  lemma SaveIsSteadyExactly(p: Pool, d: Domain, found: Record, q: Pool, env: Env)
    requires Step(p, Event.Save(d, found), q) && d in p.records && RecordInv(p.records[d])
    requires found.next4 == 0 && Available(p.records[d], env) != []
    ensures var r := p.records[d];
      Steady(p, Event.Save(d, found), q, d, env) <==>
      && Elements(found.v4) <= Elements(r.v4) && Elements(found.v6) <= Elements(r.v6)
      && (r.next4 < |r.v4| || r.next4 % |Available(r, env)| == 0)
  {
    var r := p.records[d];
    SaveKeepsOldAddsNew(r, found);
    hide Available, RecordInv, BoundIndex, AppendNew;
    if Elements(found.v4) <= Elements(r.v4) && Elements(found.v6) <= Elements(r.v6) {
      NothingNew(r.v4, found.v4);
      NothingNew(r.v6, found.v6);
      IndexKept(r, found);
      ModSmall(0, |Available(r, env)|);
    }
  }

  /** A cut of k entries at index `next`: what a selection on a known record does. */
  ghost predicate Cut(r: Record, a: seq<Pick>, picks: seq<Pick>, r': Record)
    requires a != []
  {
    && SameCandidates(r, r')
    && picks == Cycle(a, r.next4, |picks|)
    && (picks == [] ==> r'.next4 % |a| == r.next4 % |a|)
    && (picks != [] ==> r'.next4 == (r.next4 + |picks|) % |a|)
  }

  lemma BatchOnKnown(m: map<Domain, Record>, d: Domain, count: int, env: Env, ans: Answer,
                     m': map<Domain, Record>, out: Option<seq<Pick>>)
    requires BatchStep(m, d, count, env, ans, m', out)
    requires d in m && RecordInv(m[d]) && Available(m[d], env) != []
    ensures d in m' && Cut(m[d], Available(m[d], env), if out.Some? then out.value else [], m'[d])
    ensures m'[d].white == m[d].white
    ensures forall x :: x in m && x != d ==> x in m' && m'[x] == m[x]
    ensures count > 0 ==> out.Some? && |out.value| == count
  {
    if count > 0 {
      FoldIsNoop(m[d], m'[d].(next4 := m[d].next4));
    }
  }

  lemma SingleOnKnown(m: map<Domain, Record>, d: Domain, env: Env, ans: Answer,
                      m': map<Domain, Record>, out: Option<Pick>)
    requires SingleStep(m, d, env, ans, m', out)
    requires d in m && RecordInv(m[d]) && Available(m[d], env) != []
    ensures out.Some? && d in m' && Cut(m[d], Available(m[d], env), [out.value], m'[d])
    ensures m'[d].white == m[d].white
    ensures forall x :: x in m && x != d ==> x in m' && m'[x] == m[x]
  {
    FoldIsNoop(m[d], m'[d].(next4 := m[d].next4));
  }

  lemma SameAvailable(a: Record, b: Record, env: Env)
    requires SameCandidates(a, b)
    ensures Available(a, env) == Available(b, env)
  {
  }

  lemma SteadyBatch(p: Pool, e: Event, q: Pool, d: Domain, env: Env)
    requires Step(p, e, q) && e.Batch? && Steady(p, e, q, d, env)
    requires d in p.records && RecordInv(p.records[d]) && Available(p.records[d], env) != []
    ensures Cut(p.records[d], Available(p.records[d], env), Allocated(e, d), q.records[d])
    ensures q.records[d].white == p.records[d].white
  {
    hide RecordInv, Available, Cycle, NextStep, MergeAll;
    if e.domain == d { BatchOnKnown(p.records, d, e.count, env, e.ans, q.records, e.picks); }
  }

  lemma SteadyNext(p: Pool, e: Event, q: Pool, d: Domain, env: Env)
    requires Step(p, e, q) && e.Next? && Steady(p, e, q, d, env)
    requires d in p.records && RecordInv(p.records[d]) && Available(p.records[d], env) != []
    ensures Cut(p.records[d], Available(p.records[d], env), Allocated(e, d), q.records[d])
    ensures q.records[d].white == p.records[d].white
  {
    hide RecordInv, Available, Cycle, BatchStep, SingleStep, MergeAll, Live;
    if e.rq.domain == d {
      match e.via
      case FromReserve =>
      case CutBatch(batch) => BatchOnKnown(p.records, d, BATCH_SIZE, env, e.rq.ans1, q.records, Some(batch));
      case FailedBatch(mid) => BatchOnKnown(p.records, d, BATCH_SIZE, env, e.rq.ans1, mid, None);
      case Lone => SingleOnKnown(p.records, d, env, e.rq.ans2, q.records, e.pick);
    } else {
      NextElsewhere(p, e.rq, q, e.pick, e.via, d);
    }
  }

  lemma NextElsewhere(p: Pool, rq: Request, q: Pool, out: Option<Pick>, via: Via, d: Domain)
    requires NextStep(p, rq, q, out, via) && rq.domain != d && d in p.records
    ensures d in q.records && q.records[d] == p.records[d]
  {
    hide IsFold, Available;
  }

  lemma InvFromParts(a: Record, b: Record)
    requires RecordInv(a) && SameCandidates(a, b) && a.white == b.white
    ensures RecordInv(b)
  {
  }

  /** Any other step that leaves the candidates alone takes nothing and keeps the record invariant. */
  lemma SteadyOther(p: Pool, e: Event, q: Pool, d: Domain, env: Env)
    requires Step(p, e, q) && !e.Batch? && !e.Next? && Steady(p, e, q, d, env)
    requires d in p.records && RecordInv(p.records[d]) && Available(p.records[d], env) != []
    ensures SameTurn(p.records[d], q.records[d], env)
    ensures RecordInv(q.records[d])
  {
    hide RecordInv, Available;
    var r, r' := p.records[d], q.records[d];
    match e
    case Merge(peers) =>
      if d in peers {
        MergeOfInv(r, peers[d], r');
      }
    case Report(d', ip, status) =>
      if d' == d { ReportKeepsInv(r, ip, status); }
    case Save(d', found) =>
      if d' == d { InvFromParts(r, r'); }
    case Latency(d', ip, ms) => InvFromParts(r, r');
  }

  lemma SteadyStep(p: Pool, e: Event, q: Pool, d: Domain, env: Env)
    requires Step(p, e, q) && Steady(p, e, q, d, env)
    requires d in p.records && RecordInv(p.records[d]) && Available(p.records[d], env) != []
    ensures Cut(p.records[d], Available(p.records[d], env), Allocated(e, d), q.records[d])
    ensures RecordInv(q.records[d])
  {
    hide RecordInv, Available, Cycle, Step;
    if e.Batch? {
      SteadyBatch(p, e, q, d, env);
      InvFromParts(p.records[d], q.records[d]);
    } else if e.Next? {
      SteadyNext(p, e, q, d, env);
      InvFromParts(p.records[d], q.records[d]);
    } else {
      SteadyOther(p, e, q, d, env);
    }
  }

  lemma CycleFrom<T>(a: seq<T>, s: nat, t: nat, k: nat)
    requires |a| > 0 && s % |a| == t % |a|
    ensures Cycle(a, s, k) == Cycle(a, t, k)
  {
    forall i | 0 <= i < k ensures Cycle(a, s, k)[i] == Cycle(a, t, k)[i] {
      AtShift(a, s, i, s % |a|);
      AtShift(a, t, i, t % |a|);
    }
  }

  /** `all` was read off ring a from position start on, and the next position is congruent to cur. */
  ghost predicate Walk(a: seq<Pick>, start: nat, all: seq<Pick>, cur: nat)
    requires a != []
  {
    && all == Cycle(a, start, |all|)
    && cur % |a| == (start + |all|) % |a|
  }

  lemma WalkOn(a: seq<Pick>, start: nat, all: seq<Pick>, cur: nat, more: seq<Pick>, cur': nat)
    requires a != [] && Walk(a, start, all, cur)
    requires more == Cycle(a, cur, |more|)
    requires if more == [] then cur' % |a| == cur % |a| else cur' == (cur + |more|) % |a|
    ensures Walk(a, start, all + more, cur')
  {
    var t := (start + |all|) % |a|;
    ModShift(start + |all|, 0, |a|);
    CycleFrom(a, cur, t, |more|);
    CycleSplit(a, start, |all|, |more|, t);
    if more == [] {
      assert all + more == all;
    } else {
      ModShift(cur, |more|, |a|);
      ModShift(start + |all|, |more|, |a|);
      ModShift(cur + |more|, 0, |a|);
    }
  }

  /** Whatever mix of calls is made, the addresses taken are one uninterrupted walk around the candidate ring. */
  lemma {:induction false} AllocationIsOneWalk(s: seq<Pool>, es: seq<Event>, d: Domain, env: Env, a: seq<Pick>, i: nat)
    requires SteadyRun(s, es, d, env) && i <= |es|
    requires d in s[0].records && RecordInv(s[0].records[d])
    requires a == Available(s[0].records[d], env) != []
    ensures d in s[i].records && SameCandidates(s[0].records[d], s[i].records[d]) && RecordInv(s[i].records[d])
    ensures Walk(a, s[0].records[d].next4, AllAllocated(es[..i], d), s[i].records[d].next4)
  {
    hide RecordInv, Available, Cycle, Step, Walk, Steady;
    if i == 0 {
      WalkStart(a, s[0].records[d].next4);
      assert AllAllocated(es[..0], d) == [];
    } else {
      AllocationIsOneWalk(s, es, d, env, a, i - 1);
      SameAvailable(s[0].records[d], s[i - 1].records[d], env);
      assert Steady(s[i - 1], es[i - 1], s[i], d, env) && Step(s[i - 1], es[i - 1], s[i]) by { RunAt(s, es, d, env, i - 1); }
      SteadyStep(s[i - 1], es[i - 1], s[i], d, env);
      assert d in s[i].records by { SteadyKnows(s[i - 1], es[i - 1], s[i], d, env); }
      assert es[..i][..i - 1] == es[..i - 1];
      WalkOn(a, s[0].records[d].next4, AllAllocated(es[..i - 1], d), s[i - 1].records[d].next4,
             Allocated(es[i - 1], d), s[i].records[d].next4);
    }
  }

  lemma RunAt(s: seq<Pool>, es: seq<Event>, d: Domain, env: Env, j: nat)
    requires SteadyRun(s, es, d, env) && j < |es|
    ensures Step(s[j], es[j], s[j + 1]) && Steady(s[j], es[j], s[j + 1], d, env)
  {
    hide Step, Steady;
  }

  lemma SteadyKnows(p: Pool, e: Event, q: Pool, d: Domain, env: Env)
    requires Steady(p, e, q, d, env)
    ensures d in p.records && d in q.records
  {
  }

  lemma WalkStart(a: seq<Pick>, start: nat)
    requires a != []
    ensures Walk(a, start, [], start)
  {
    assert [] == Cycle(a, start, 0);
  }

  lemma WalkOfRun(s: seq<Pool>, es: seq<Event>, d: Domain, env: Env, a: seq<Pick>) returns (cur: nat)
    requires SteadyRun(s, es, d, env)
    requires d in s[0].records && RecordInv(s[0].records[d])
    requires a == Available(s[0].records[d], env) != []
    ensures Walk(a, s[0].records[d].next4, AllAllocated(es, d), cur)
  {
    assert |s| == |es| + 1;
    hide SteadyRun, Available, AllAllocated, RecordInv, Walk;
    AllocationIsOneWalk(s, es, d, env, a, |es|);
    assert es[..|es|] == es;
    cur := s[|es|].records[d].next4;
  }

  /**
   * Of k addresses taken in total over n places in the ring, every address is taken floor(k/n) or ceil(k/n) times for
   * each place it has: once that, unless it is filed in both lists.
   */
  lemma FairAllocation(s: seq<Pool>, es: seq<Event>, d: Domain, env: Env, a: seq<Pick>, x: Ip)
    requires SteadyRun(s, es, d, env)
    requires d in s[0].records && RecordInv(s[0].records[d])
    requires a == Available(s[0].records[d], env) && x in Ips(a)
    ensures SharedByPlaces(Ips(a), Ips(AllAllocated(es, d)), x)
    ensures FiledOnce(s[0].records[d], env) ==> FairlyShared(Ips(a), Ips(AllAllocated(es, d)), x)
  {
    assert |s| > 0;
    hide SteadyRun, Available, AllAllocated, Cycle, Ips, FiledOnce, RecordInv;
    InvNoDup(s[0].records[d]);
    FiledOnceExactly(s[0].records[d], env);
    var _ := WalkOfRun(s, es, d, env, a);
    var start, k := s[0].records[d].next4, |AllAllocated(es, d)|;
    IpsOfCycle(a, start, k);
    PlacesShare(Ips(a), start, k, x);
    if NoDup(Ips(a)) { FairShare(Ips(a), start, k, x); }
  }

  /** A whole turn is fair to every address exactly when no usable one is filed in both lists. */
  lemma TurnFairExactly(r: Record, env: Env, a: seq<Pick>, start: nat)
    requires RecordInv(r) && a == Available(r, env) != []
    ensures (forall x :: x in Ips(a) ==> FairlyShared(Ips(a), Ips(Cycle(a, start, |a|)), x)) <==> FiledOnce(r, env)
  {
    hide Available, RecordInv, Cycle, FiledOnce, FairlyShared, Ips;
    InvNoDup(r);
    FiledOnceExactly(r, env);
    var xs := Ips(a);
    IpsOfCycle(a, start, |a|);
    NoDupByCount(xs);
    forall x ensures FairlyShared(xs, Cycle(xs, start, |a|), x) <==> multiset(xs)[x] == 1 {
      FullTurn(xs, start, x);
      FairTurn(xs, Cycle(xs, start, |a|), x);
    }
    assert forall x :: x in xs <==> multiset(xs)[x] > 0;
  }

  lemma FairTurn(xs: seq<Ip>, turn: seq<Ip>, x: Ip)
    requires |turn| == |xs| > 0
    ensures FairlyShared(xs, turn, x) <==> multiset(turn)[x] == 1
  {
    var n := |xs|;
    DivModUnique(n, 1, 0, n);
    DivModUnique(n + n - 1, 1, n - 1, n);
  }

  lemma WalkWindow(a: seq<Pick>, start: nat, all: seq<Pick>, i: nat, j: nat)
    requires a != [] && all == Cycle(a, start, |all|)
    requires i <= j <= |all|
    ensures all[i..j] == Cycle(a, start + i, j - i)
    ensures Elements(all[i..j]) <= Elements(a)
  {
    CycleSlice(a, start, |all|, i, j);
    forall p | p in all[i..j] ensures p in a {
      var x :| i <= x < j && all[x] == p;
      assert all[x] == At(a, start + x);
    }
  }

  /**
   * Consecutive allocations are all listed, allowed and not blacklisted. They are different addresses exactly when
   * they are at most one turn and hold no address at two of its places: always, then, if no address is filed in both
   * lists, and over a whole turn only then.
   */
  lemma WindowDistinct(s: seq<Pool>, es: seq<Event>, d: Domain, env: Env, a: seq<Pick>, i: nat, j: nat)
    requires SteadyRun(s, es, d, env)
    requires d in s[0].records && RecordInv(s[0].records[d])
    requires a == Available(s[0].records[d], env) != []
    requires i <= j <= |AllAllocated(es, d)|
    ensures var r, w := s[0].records[d], AllAllocated(es, d)[i..j];
      && (forall p :: p in w ==> Pickable(r, env, p))
      && (NoDup(Ips(w)) <==> j - i <= |a| && TwinsApart(a, r.next4 + i, j - i))
      && (FiledOnce(r, env) ==> (NoDup(Ips(w)) <==> j - i <= |a|))
      && (j - i == |a| ==> (NoDup(Ips(w)) <==> FiledOnce(r, env)))
  {
    assert |s| > 0;
    hide SteadyRun, Available, AllAllocated, Cycle, RecordInv, Ips, FiledOnce, TwinsApart, Pickable, NoDup, Walk;
    var cur := WalkOfRun(s, es, d, env, a);
    WindowOfWalk(s[0].records[d], env, a, AllAllocated(es, d), cur, i, j);
  }

  lemma WindowOfWalk(r: Record, env: Env, a: seq<Pick>, all: seq<Pick>, cur: nat, i: nat, j: nat)
    requires RecordInv(r) && a == Available(r, env) != []
    requires Walk(a, r.next4, all, cur) && i <= j <= |all|
    ensures var w := all[i..j];
      && (forall p :: p in w ==> Pickable(r, env, p))
      && (NoDup(Ips(w)) <==> j - i <= |a| && TwinsApart(a, r.next4 + i, j - i))
      && (FiledOnce(r, env) ==> (NoDup(Ips(w)) <==> j - i <= |a|))
      && (j - i == |a| ==> (NoDup(Ips(w)) <==> FiledOnce(r, env)))
  {
    hide Available, Cycle, RecordInv, Ips, FiledOnce, TwinsApart;
    AvailableExact(r, env);
    InvNoDup(r);
    FiledOnceExactly(r, env);
    WalkWindow(a, r.next4, all, i, j);
    StretchDistinctExactly(a, r.next4 + i, j - i);
    StretchesOfRing(a, r.next4 + i, j - i);
    hide NoDup, Pickable;
    forall p | p in all[i..j] ensures Pickable(r, env, p) {
      assert p in Elements(all[i..j]) && p in Elements(a);
    }
  }

  // ---------------------------------------------------------------- a batch is that many single picks

  /** ms follows single picks for d, one after the other, with their answers in picks. */
  ghost predicate Singles(ms: seq<map<Domain, Record>>, d: Domain, env: Env, ans: Answer, picks: seq<Option<Pick>>) {
    && |ms| == |picks| + 1
    && (forall i :: 0 <= i < |picks| ==> SingleStep(ms[i], d, env, ans, ms[i + 1], picks[i]))
  }

  /** The record after k addresses were taken from base. */
  function Advanced(base: Record, a: seq<Pick>, k: nat): Record {
    if a == [] || k == 0 then base else base.(next4 := (base.next4 + k) % |a|)
  }

  function Taken(base: Record, a: seq<Pick>, k: nat): Option<seq<Pick>> {
    if a == [] then None else Some(Cycle(a, base.next4, k))
  }

  lemma AdvancedOnce(base: Record, a: seq<Pick>, k: nat, j: nat)
    requires j > 0
    ensures Advanced(Advanced(base, a, k), a, j) == Advanced(base, a, k + j)
    ensures a != [] ==> Cycle(a, base.next4, k + j) == Cycle(a, base.next4, k) + Cycle(a, Advanced(base, a, k).next4, j)
  {
    if a != [] {
      ModShift(base.next4 + k, j, |a|);
      var t := (base.next4 + k) % |a|;
      ModShift(base.next4 + k, 0, |a|);
      CycleSplit(a, base.next4, k, j, t);
      CycleFrom(a, Advanced(base, a, k).next4, t, j);
    }
  }

  /** A batch on a record that satisfies the invariant, in closed form. */
  lemma BatchClosed(m: map<Domain, Record>, d: Domain, count: int, env: Env, ans: Answer,
                    m': map<Domain, Record>, out: Option<seq<Pick>>, base: Record, a: seq<Pick>)
    requires BatchStep(m, d, count, env, ans, m', out) && count > 0
    requires d in m || !ans.Fails()
    requires base == Resolved(m, d, ans) && RecordInv(base) && a == Available(base, env)
    ensures m' == m[d := Advanced(base, a, count)] && out == Taken(base, a, count)
  {
    FoldIsNoop(base, m'[d].(next4 := base.next4));
  }

  lemma SingleClosed(m: map<Domain, Record>, d: Domain, env: Env, ans: Answer,
                     m': map<Domain, Record>, out: Option<Pick>, base: Record, a: seq<Pick>)
    requires SingleStep(m, d, env, ans, m', out)
    requires d in m || !ans.Fails()
    requires base == Resolved(m, d, ans) && RecordInv(base) && a == Available(base, env)
    ensures m' == m[d := Advanced(base, a, 1)]
    ensures out == if a == [] then None else Some(Cycle(a, base.next4, 1)[0])
  {
    FoldIsNoop(base, m'[d].(next4 := base.next4));
    hide IsFold, RecordInv, Available;
    if a != [] { assert Cycle(a, base.next4, 1)[0] == At(a, base.next4); }
  }

  lemma AdvancedInv(base: Record, a: seq<Pick>, k: nat, env: Env)
    requires RecordInv(base)
    ensures RecordInv(Advanced(base, a, k)) && Available(Advanced(base, a, k), env) == Available(base, env)
  {
    SameAvailable(base, Advanced(base, a, k), env);
  }

  lemma {:induction false} SinglesWalk(ms: seq<map<Domain, Record>>, d: Domain, env: Env, ans: Answer,
                                       picks: seq<Option<Pick>>, base: Record, a: seq<Pick>, k: nat)
    requires Singles(ms, d, env, ans, picks) && 0 < k <= |picks|
    requires d in ms[0] || !ans.Fails()
    requires base == Resolved(ms[0], d, ans) && RecordInv(base) && a == Available(base, env)
    ensures ms[k] == ms[0][d := Advanced(base, a, k)]
    ensures forall i :: 0 <= i < k ==> picks[i] == if a == [] then None else Some(Cycle(a, base.next4, k)[i])
  {
    hide RecordInv, Available, SingleStep, Cycle, Resolved;
    if k == 1 {
      SingleClosed(ms[0], d, env, ans, ms[1], picks[0], base, a);
    } else {
      SinglesWalk(ms, d, env, ans, picks, base, a, k - 1);
      AdvancedInv(base, a, k - 1, env);
      var mid := Advanced(base, a, k - 1);
      SinglesOnce(ms[0], ms[k - 1], d, env, ans, ms[k], picks[k - 1], mid, a);
      hide Advanced, Singles;
      AdvancedOnce(base, a, k - 1, 1);
    }
  }

  lemma SinglesOnce(m0: map<Domain, Record>, m: map<Domain, Record>, d: Domain, env: Env, ans: Answer,
                    m': map<Domain, Record>, out: Option<Pick>, mid: Record, a: seq<Pick>)
    requires SingleStep(m, d, env, ans, m', out) && m == m0[d := mid]
    requires RecordInv(mid) && a == Available(mid, env)
    ensures m' == m0[d := Advanced(mid, a, 1)]
    ensures out == if a == [] then None else Some(Cycle(a, mid.next4, 1)[0])
  {
    hide RecordInv, Available, SingleStep, Cycle, Saved;
    SingleClosed(m, d, env, ans, m', out, mid, a);
  }

  /** NextIPs(count) answers and leaves exactly what count single picks in a row answer and leave. */
  lemma BatchRefinesSingles(m: map<Domain, Record>, d: Domain, env: Env, ans: Answer,
                            m': map<Domain, Record>, out: Option<seq<Pick>>,
                            ms: seq<map<Domain, Record>>, picks: seq<Option<Pick>>)
    requires AllInv(m) && NoDup(ans.v4) && NoDup(ans.v6)
    requires picks != [] && BatchStep(m, d, |picks|, env, ans, m', out)
    requires Singles(ms, d, env, ans, picks) && ms[0] == m
    ensures ms[|picks|] == m'
    ensures forall i :: 0 <= i < |picks| ==>
      picks[i] == if out.None? then None else Some(out.value[i])
    ensures out.Some? ==> |out.value| == |picks|
  {
    hide AllInv, RecordInv, Available, Saved, Cycle;
    if d in m || !ans.Fails() {
      var base := Resolved(m, d, ans);
      ResolvedInv(m, d, ans);
      SinglesWalk(ms, d, env, ans, picks, base, Available(base, env), |picks|);
      BatchClosed(m, d, |picks|, env, ans, m', out, base, Available(base, env));
    } else {
      SinglesFail(ms, d, env, ans, picks);
    }
  }

  lemma {:induction false} SinglesFail(ms: seq<map<Domain, Record>>, d: Domain, env: Env, ans: Answer,
                                       picks: seq<Option<Pick>>)
    requires Singles(ms, d, env, ans, picks)
    requires d !in ms[0] && ans.Fails()
    ensures ms[|picks|] == ms[0]
    ensures forall i :: 0 <= i < |picks| ==> picks[i] == None
  {
    if picks != [] {
      var k := |picks| - 1;
      SinglesFail(ms[..k + 1], d, env, ans, picks[..k]);
      assert SingleStep(ms[k], d, env, ans, ms[k + 1], picks[k]);
    }
  }

  /** Two batches in a row are one batch of the summed size. */
  lemma BatchesCompose(m: map<Domain, Record>, d: Domain, j: nat, k: nat, env: Env, ans: Answer,
                       m1: map<Domain, Record>, out1: Option<seq<Pick>>,
                       m2: map<Domain, Record>, out2: Option<seq<Pick>>,
                       m': map<Domain, Record>, out: Option<seq<Pick>>)
    requires AllInv(m) && NoDup(ans.v4) && NoDup(ans.v6) && j > 0 && k > 0
    requires BatchStep(m, d, j, env, ans, m1, out1) && BatchStep(m1, d, k, env, ans, m2, out2)
    requires BatchStep(m, d, j + k, env, ans, m', out)
    ensures m2 == m'
    ensures out == if out1.Some? && out2.Some? then Some(out1.value + out2.value) else None
  {
    hide AllInv, RecordInv, Available, Saved, Cycle;
    if d in m || !ans.Fails() {
      var base := Resolved(m, d, ans);
      var a := Available(base, env);
      ResolvedInv(m, d, ans);
      BatchClosed(m, d, j, env, ans, m1, out1, base, a);
      BatchClosed(m, d, j + k, env, ans, m', out, base, a);
      AdvancedInv(base, a, j, env);
      BatchClosed(m1, d, k, env, ans, m2, out2, Advanced(base, a, j), a);
      AdvancedOnce(base, a, j, k);
    }
  }

  /**
   * A batch names no address twice exactly when it is at most one turn and holds no address at two of its places.
   * If no address is filed in both lists, asking for no more than there are is enough; a batch of a whole turn is
   * free of repetition only then.
   */
  lemma BatchDistinctExactly(m: map<Domain, Record>, d: Domain, count: int, env: Env, ans: Answer,
                             m': map<Domain, Record>, out: Option<seq<Pick>>)
    requires AllInv(m) && NoDup(ans.v4) && NoDup(ans.v6)
    requires BatchStep(m, d, count, env, ans, m', out) && out.Some?
    ensures var r := Resolved(m, d, ans); var a, xs := Available(r, env), Ips(out.value);
      && (NoDup(xs) <==> count <= |a| && TwinsApart(a, r.next4, count))
      && (FiledOnce(r, env) ==> (NoDup(xs) <==> count <= |a|))
      && (count == |a| ==> (NoDup(xs) <==> FiledOnce(r, env)))
  {
    hide AllInv, Available, Saved, Cycle, IsFold, RecordInv, Ips, FiledOnce, TwinsApart;
    var base := Resolved(m, d, ans);
    var a := Available(base, env);
    ResolvedInv(m, d, ans);
    BatchClosed(m, d, count, env, ans, m', out, base, a);
    InvNoDup(base);
    FiledOnceExactly(base, env);
    StretchDistinctExactly(a, base.next4, count);
    StretchesOfRing(a, base.next4, count);
  }
}
