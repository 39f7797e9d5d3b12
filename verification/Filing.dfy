/** Addresses filed in both lists of a record: what that does to a ring of candidates, and when it cannot happen. */
module Filing {
  import opened Lists
  import opened Records
  import opened Rotation
  import opened PoolSpec

  /** The addresses of a list of picks; the list an address comes from is forgotten. */
  function Ips(ps: seq<Pick>): (xs: seq<Ip>)
    ensures |xs| == |ps|
  {
    seq(|ps|, i requires 0 <= i < |ps| => ps[i].ip)
  }

  /** No usable address is a candidate of both families at once. */
  predicate FiledOnce(r: Record, env: Env) {
    env.allowV4 && env.allowV6 ==> Elements(r.v4) * Elements(r.v6) <= r.black
  }

  /** The candidate ring names no address twice exactly when no usable one is filed in both lists. */
  lemma FiledOnceExactly(r: Record, env: Env)
    requires NoDup(r.v4) && NoDup(r.v6)
    ensures NoDup(Ips(Available(r, env))) <==> FiledOnce(r, env)
  {
    var a := Available(r, env);
    AvailableExact(r, env);
    hide Available;
    if FiledOnce(r, env) {
      forall i, j | 0 <= i < j < |a| ensures a[i].ip != a[j].ip {
        assert a[i] in a && a[j] in a;
        OnePlace(r, env, a[i], a[j]);
      }
    } else {
      var x :| x in Elements(r.v4) * Elements(r.v6) && x !in r.black;
      TwoPlaces(a, Pick(x, false), Pick(x, true));
    }
  }

  lemma OnePlace(r: Record, env: Env, p: Pick, q: Pick)
    requires FiledOnce(r, env) && Pickable(r, env, p) && Pickable(r, env, q) && p != q
    ensures p.ip != q.ip
  {
    assert p.ip in (if p.isV6 then Elements(r.v6) else Elements(r.v4));
    assert q.ip in (if q.isV6 then Elements(r.v6) else Elements(r.v4));
  }

  lemma TwoPlaces(a: seq<Pick>, p: Pick, q: Pick)
    requires p in a && q in a && p != q && p.ip == q.ip
    ensures !NoDup(Ips(a))
  {
    var i :| 0 <= i < |a| && a[i] == p;
    var j :| 0 <= j < |a| && a[j] == q;
    assert Ips(a)[i] == Ips(a)[j];
  }

  lemma IpsOfCycle(a: seq<Pick>, start: nat, k: nat)
    requires a != []
    ensures Ips(a) != [] && Ips(Cycle(a, start, k)) == Cycle(Ips(a), start, k)
  {
    var c, xs := Cycle(a, start, k), Ips(a);
    forall i | 0 <= i < k ensures Ips(c)[i] == Cycle(xs, start, k)[i] {
      IpAt(a, start + i);
      assert c[i] == At(a, start + i) && Cycle(xs, start, k)[i] == At(xs, start + i);
    }
  }

  lemma IpAt(a: seq<Pick>, p: nat)
    requires a != []
    ensures |Ips(a)| > 0 && At(Ips(a), p) == At(a, p).ip
  {
    var i := p % |a|;
    assert Ips(a)[i] == a[i].ip;
  }

  /** How many steps after ring position `start` position i comes up. */
  function Ahead(start: nat, i: nat, n: nat): (k: nat)
    requires i < n
    ensures k < n
  {
    var t := start % n;
    if i >= t then i - t else i + n - t
  }

  lemma AheadComesUp(start: nat, i: nat, k: nat, n: nat)
    requires i < n && k < n
    ensures (start + k) % n == i <==> k == Ahead(start, i, n)
  {
    var t := start % n;
    ModShift(start, k, n);
    WrapOnce(t, k, n);
  }

  /** Within k steps from start, no address comes up at two of its places in the ring. */
  predicate TwinsApart(a: seq<Pick>, start: nat, k: nat) {
    forall i, j :: 0 <= i < j < |a| && a[i].ip == a[j].ip ==> Ahead(start, i, |a|) >= k || Ahead(start, j, |a|) >= k
  }

  /** k addresses taken from start on are distinct exactly when they are at most one turn and hold no twins. */
  lemma StretchDistinctExactly(a: seq<Pick>, start: nat, k: nat)
    requires a != []
    ensures NoDup(Ips(Cycle(a, start, k))) <==> k <= |a| && TwinsApart(a, start, k)
  {
    var n, c := |a|, Cycle(a, start, k);
    if k > n {
      ModAddOne(start, n);
      assert c[0] == At(a, start) == At(a, start + n) == c[n];
      assert Ips(c)[0] == Ips(c)[n];
    } else {
      if TwinsApart(a, start, k) {
        forall p, q | 0 <= p < q < k ensures Ips(c)[p] != Ips(c)[q] {
          TwinsInStretch(a, start, k, p, q);
        }
      }
      if NoDup(Ips(c)) {
        forall i, j | 0 <= i < j < n && a[i].ip == a[j].ip
          ensures Ahead(start, i, n) >= k || Ahead(start, j, n) >= k
        {
          PlacesInStretch(a, start, k, i);
          PlacesInStretch(a, start, k, j);
          AheadComesUp(start, i, Ahead(start, i, n), n);
          AheadComesUp(start, j, Ahead(start, j, n), n);
        }
      }
    }
  }

  lemma PlacesInStretch(a: seq<Pick>, start: nat, k: nat, i: nat)
    requires i < |a|
    ensures var p := Ahead(start, i, |a|); p < k ==> Ips(Cycle(a, start, k))[p] == a[i].ip
  {
    var p := Ahead(start, i, |a|);
    AheadComesUp(start, i, p, |a|);
    if p < k {
      assert Cycle(a, start, k)[p] == At(a, start + p);
    }
  }

  lemma TwinsInStretch(a: seq<Pick>, start: nat, k: nat, p: nat, q: nat)
    requires a != [] && p < q < k <= |a| && TwinsApart(a, start, k)
    ensures Ips(Cycle(a, start, k))[p] != Ips(Cycle(a, start, k))[q]
  {
    var n, c := |a|, Cycle(a, start, k);
    var i, j := (start + p) % n, (start + q) % n;
    ModDistinct(start, p, q, n);
    AheadComesUp(start, i, p, n);
    AheadComesUp(start, j, q, n);
    assert c[p] == At(a, start + p) == a[i] && c[q] == At(a, start + q) == a[j];
    if i < j {
      assert a[i].ip != a[j].ip;
    } else {
      assert a[j].ip != a[i].ip;
    }
  }

  /** Without twins in the ring there are none in any stretch; a whole turn holds all of them. */
  lemma StretchesOfRing(a: seq<Pick>, start: nat, k: nat)
    requires a != []
    ensures NoDup(Ips(a)) ==> TwinsApart(a, start, k)
    ensures k >= |a| && TwinsApart(a, start, k) ==> NoDup(Ips(a))
  {
    forall i, j | NoDup(Ips(a)) && 0 <= i < j < |a| ensures a[i].ip != a[j].ip {
      assert Ips(a)[i] != Ips(a)[j];
    }
    if k >= |a| && TwinsApart(a, start, k) {
      assert forall i :: 0 <= i < |a| ==> Ahead(start, i, |a|) < k;
    }
  }

  // ---------------------------------------------------------------- when addresses are filed by family

  /** The IPv4 list holds no IPv6 address and the IPv6 list nothing else. */
  ghost predicate ByFamily(v4: seq<Ip>, v6: seq<Ip>) {
    && (forall x :: x in v4 ==> !x.V6?)
    && (forall x :: x in v6 ==> x.V6?)
  }

  lemma ByFamilyFilesOnce(r: Record, env: Env)
    requires ByFamily(r.v4, r.v6)
    ensures FiledOnce(r, env)
  {
  }

  /** What resolvers find, saves bring and peers name is filed by family. */
  ghost predicate FamilyInput(e: Event) {
    match e
    case Save(_, found) => ByFamily(found.v4, found.v6)
    case Merge(peers) => forall d :: d in peers ==> ByFamily(peers[d].v4, peers[d].v6)
    case Batch(_, _, _, ans, _) => ByFamily(ans.v4, ans.v6)
    case Next(rq, _, _) => ByFamily(rq.ans1.v4, rq.ans1.v6) && ByFamily(rq.ans2.v4, rq.ans2.v6)
    case _ => true
  }

  ghost predicate AllByFamily(m: map<Domain, Record>) {
    forall d :: d in m ==> ByFamily(m[d].v4, m[d].v6)
  }

  lemma GrownByFamily(r: Record, b: Record, n4: set<Ip>, n6: set<Ip>)
    requires ByFamily(r.v4, r.v6)
    requires Elements(b.v4) == Elements(r.v4) + n4 && Elements(b.v6) == Elements(r.v6) + n6
    requires (forall x :: x in n4 ==> !x.V6?) && (forall x :: x in n6 ==> x.V6?)
    ensures ByFamily(b.v4, b.v6)
  {
    assert forall x :: x in b.v4 ==> x in Elements(b.v4);
    assert forall x :: x in b.v6 ==> x in Elements(b.v6);
  }

  lemma SavedByFamily(prev: Record, found: Record)
    requires ByFamily(prev.v4, prev.v6) && ByFamily(found.v4, found.v6)
    ensures ByFamily(Saved(prev, found).v4, Saved(prev, found).v6)
  {
    SaveKeepsOldAddsNew(prev, found);
    hide Saved, Combine;
    GrownByFamily(prev, Saved(prev, found), Elements(found.v4), Elements(found.v6));
  }

  lemma FoldedByFamily(a: Record, b: Record)
    requires IsFold(a, b) && ByFamily(a.v4, a.v6)
    ensures ByFamily(b.v4, b.v6)
  {
    FoldNormalises(a, b);
    GrownByFamily(a, b, Fam4(a.white), Fam6(a.white));
  }

  lemma MergedByFamily(a: Record, p: PeerRecord, b: Record)
    requires IsMerge(a, p, b) && ByFamily(a.v4, a.v6) && ByFamily(p.v4, p.v6)
    ensures ByFamily(b.v4, b.v6)
  {
    MergeIsJoin(a, p, b);
    var w := a.white + Elements(p.v4) + Elements(p.v6);
    JoinedParts(Abs(a), Elements(p.v4), Elements(p.v6), Abs(b));
    hide IsMerge, Fam4, Fam6, Elements;
    assert (forall x :: x in Elements(p.v4) ==> !x.V6?) && (forall x :: x in Elements(p.v6) ==> x.V6?) by { PartsByFamily(p); }
    assert (forall x :: x in Fam4(w) ==> !x.V6?) && (forall x :: x in Fam6(w) ==> x.V6?) by { TypedParts(w); }
    GrownByFamily(a, b, Elements(p.v4) + Fam4(w), Elements(p.v6) + Fam6(w));
  }

  lemma JoinedParts(c: Candidates, n4: set<Ip>, n6: set<Ip>, b: Candidates)
    requires b == Join(c, n4, n6)
    ensures b.v4 == c.v4 + (n4 + Fam4(c.white + n4 + n6)) && b.v6 == c.v6 + (n6 + Fam6(c.white + n4 + n6))
  {
    hide Fam4, Fam6;
  }

  lemma TypedParts(w: set<Ip>)
    ensures (forall x :: x in Fam4(w) ==> !x.V6?) && (forall x :: x in Fam6(w) ==> x.V6?)
  {
  }

  lemma PartsByFamily(p: PeerRecord)
    requires ByFamily(p.v4, p.v6)
    ensures (forall x :: x in Elements(p.v4) ==> !x.V6?) && (forall x :: x in Elements(p.v6) ==> x.V6?)
  {
  }

  lemma ReportedByFamily(r: Record, ip: Ip, status: int)
    requires ByFamily(r.v4, r.v6)
    ensures ByFamily(Reported(r, ip, status).v4, Reported(r, ip, status).v6)
  {
  }

  lemma BatchByFamily(m: map<Domain, Record>, d: Domain, count: int, env: Env, ans: Answer,
                      m': map<Domain, Record>, out: Option<seq<Pick>>)
    requires BatchStep(m, d, count, env, ans, m', out) && AllByFamily(m) && ByFamily(ans.v4, ans.v6)
    ensures AllByFamily(m')
  {
    hide IsFold, Available, Cycle, Saved;
    if count > 0 && (d in m || !ans.Fails()) {
      var base := Resolved(m, d, ans);
      SavedByFamily(EMPTY, ans.Found());
      FoldedByFamily(base, m'[d].(next4 := base.next4));
    }
  }

  lemma SingleByFamily(m: map<Domain, Record>, d: Domain, env: Env, ans: Answer,
                       m': map<Domain, Record>, out: Option<Pick>)
    requires SingleStep(m, d, env, ans, m', out) && AllByFamily(m) && ByFamily(ans.v4, ans.v6)
    ensures AllByFamily(m')
  {
    hide IsFold, Available, Saved;
    if d in m || !ans.Fails() {
      var base := Resolved(m, d, ans);
      SavedByFamily(EMPTY, ans.Found());
      FoldedByFamily(base, m'[d].(next4 := base.next4));
    }
  }

  lemma NextByFamily(p: Pool, rq: Request, q: Pool, out: Option<Pick>, via: Via)
    requires NextStep(p, rq, q, out, via) && AllByFamily(p.records)
    requires ByFamily(rq.ans1.v4, rq.ans1.v6) && ByFamily(rq.ans2.v4, rq.ans2.v6)
    ensures AllByFamily(q.records)
  {
    hide BatchStep, SingleStep, AllByFamily, ByFamily, Live;
    match via
    case FromReserve =>
    case CutBatch(batch) => BatchByFamily(p.records, rq.domain, BATCH_SIZE, rq.env1, rq.ans1, q.records, Some(batch));
    case FailedBatch(mid) =>
      BatchByFamily(p.records, rq.domain, BATCH_SIZE, rq.env1, rq.ans1, mid, None);
      SingleByFamily(mid, rq.domain, rq.env2, rq.ans2, q.records, out);
    case Lone => SingleByFamily(p.records, rq.domain, rq.env2, rq.ans2, q.records, out);
  }

  lemma StepByFamily(p: Pool, e: Event, q: Pool)
    requires Step(p, e, q) && AllByFamily(p.records) && FamilyInput(e)
    ensures AllByFamily(q.records)
  {
    hide ByFamily, BatchStep, SingleStep, NextStep, IsMerge, Saved, Reported;
    EmptyByFamily();
    match e
    case Save(d, found) => SavedByFamily(Get(p.records, d), found);
    case Merge(peers) =>
      forall d | d in q.records ensures ByFamily(q.records[d].v4, q.records[d].v6) {
        if d in peers { MergedByFamily(Get(p.records, d), peers[d], q.records[d]); }
      }
    case Report(d, ip, status) => ReportedByFamily(Get(p.records, d), ip, status);
    case Latency(_, _, _) =>
    case Batch(d, count, env, ans, picks) => BatchByFamily(p.records, d, count, env, ans, q.records, picks);
    case Next(rq, pick, via) => NextByFamily(p, rq, q, pick, via);
  }

  lemma EmptyByFamily()
    ensures ByFamily(EMPTY.v4, EMPTY.v6)
  {
  }

  /** As long as resolvers and peers file by family, no record ever names an address twice. */
  lemma {:induction false} RunFilesOnce(s: seq<Pool>, es: seq<Event>, i: nat, d: Domain, env: Env)
    requires Run(s, es) && i <= |es| && AllByFamily(s[0].records)
    requires forall j :: 0 <= j < |es| ==> FamilyInput(es[j])
    ensures AllByFamily(s[i].records)
    ensures d in s[i].records ==> FiledOnce(s[i].records[d], env)
  {
    hide Step, FamilyInput, ByFamily, FiledOnce;
    if i > 0 {
      RunFilesOnce(s, es, i - 1, d, env);
      StepByFamily(s[i - 1], es[i - 1], s[i]);
    }
    if d in s[i].records { ByFamilyFilesOnce(s[i].records[d], env); }
  }

  /** A peer that files an IPv4 address under IPv6 gets it into both lists, and a batch of two answers it twice. */
  lemma PeerCanFileTwice(x: Ip, d: Domain) returns (r: Record, picks: seq<Pick>)
    requires x.V4?
    ensures IsMerge(EMPTY, PeerRecord([], [x]), r) && RecordInv(r) && r.v4 == r.v6 == [x]
    ensures var env := Env(true, true, false);
      && !FiledOnce(r, env) && |Available(r, env)| == 2
      && BatchStep(map[d := r], d, 2, env, Answer([], [], 0), map[d := r], Some(picks))
    ensures |picks| == 2 && picks[0].ip == picks[1].ip == x
  {
    r := EMPTY.(v4 := [x], v6 := [x], white := {x});
    var env := Env(true, true, false);
    picks := [Pick(x, false), Pick(x, true)];
    FiledTwiceMerge(x, r);
    FiledTwiceRing(x, r, env);
    FoldSelf(r);
    assert x in Elements(r.v4) * Elements(r.v6);
    assert r.(next4 := 0) == r;
    hide IsFold, RecordInv, Available, FiledOnce, IsMerge;
    CycleOfTwo(Pick(x, false), Pick(x, true));
    assert map[d := r] == map[d := r][d := r];
    var base := Resolved(map[d := r], d, Answer([], [], 0));
    assert base == r;
  }

  lemma FiledTwiceMerge(x: Ip, r: Record)
    requires x.V4? && r == EMPTY.(v4 := [x], v6 := [x], white := {x})
    ensures IsMerge(EMPTY, PeerRecord([], [x]), r) && RecordInv(r)
  {
    ElementsEmpty<Ip>([]);
    ElementsSnoc([], x);
    assert [] + [x] == [x];
    assert Fam4({x}) == {x} && Fam6({x}) == {};
    assert r.v4[..0] == [] && r.v6[..1] == [x];
    assert ListsThen(r.v4, {}, {x});
    assert ListsThen(r.v6, {x}, {});
  }

  lemma FiledTwiceRing(x: Ip, r: Record, env: Env)
    requires r.v4 == [x] && r.v6 == [x] && r.black == {} && env == Env(true, true, false)
    ensures Available(r, env) == [Pick(x, false), Pick(x, true)]
  {
    assert [x][..0] == [];
    assert Usable([x], {}, false) == [Pick(x, false)] && Usable([x], {}, true) == [Pick(x, true)];
  }

  lemma CycleOfTwo(p: Pick, q: Pick)
    ensures Cycle([p, q], 0, 2) == [p, q]
  {
    assert At([p, q], 0) == p && At([p, q], 1) == q;
  }
}
