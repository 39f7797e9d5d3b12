/** What each operation of the DNS pool does to the whole in-memory state, as relations between states. */
module PoolSpec {
  import opened Lists
  import opened Records
  import opened Rotation

  /** What the host allows at the moment of a selection. */
  datatype Env = Env(allowV4: bool, allowV6: bool, preferV6: bool)

  /** One allocated address and the list it came from. */
  datatype Pick = Pick(ip: Ip, isV6: bool)

  /** What a quick resolution finds; nothing at all is the resolver's failure. */
  datatype Answer = Answer(v4: seq<Ip>, v6: seq<Ip>, at: int) {
    predicate Fails() { v4 == [] && v6 == [] }
    function Found(): Record { EMPTY.(v4 := v4, v6 := v6, updatedAt := at) }
  }

  /** An allocated address kept for a coming request, with the time its batch was cut. */
  datatype Reserved = Reserved(pick: Pick, at: int)

  datatype Pool = Pool(
    records: map<Domain, Record>,
    reserved: map<Domain, seq<Reserved>>,
    lastRequest: map<Domain, int>)

  const NEW_POOL := Pool(map[], map[], map[])

  /** Nanoseconds. */
  const CONCURRENT_WINDOW := 200_000_000
  const RESERVED_TTL := 500_000_000
  const BATCH_SIZE := 8

  // ---------------------------------------------------------------- candidate list

  function Usable(xs: seq<Ip>, black: set<Ip>, isV6: bool): seq<Pick> {
    if xs == [] then [] else
      var x := xs[|xs| - 1];
      Usable(xs[..|xs| - 1], black, isV6) + (if x in black then [] else [Pick(x, isV6)])
  }

  /** The single list both families are merged into, in rotation order. */
  function Available(r: Record, env: Env): seq<Pick> {
    var u4 := if env.allowV4 then Usable(r.v4, r.black, false) else [];
    var u6 := if env.allowV6 then Usable(r.v6, r.black, true) else [];
    if env.allowV6 && (env.preferV6 || !env.allowV4) then u6 + u4 else u4 + u6
  }

  lemma {:induction false} UsableExact(xs: seq<Ip>, black: set<Ip>, isV6: bool)
    ensures forall p :: p in Usable(xs, black, isV6) <==> p.isV6 == isV6 && p.ip in xs && p.ip !in black
    ensures NoDup(xs) ==> NoDup(Usable(xs, black, isV6))
  {
    if xs != [] {
      var ys, x := xs[..|xs| - 1], xs[|xs| - 1];
      assert xs == ys + [x];
      UsableExact(ys, black, isV6);
      if NoDup(xs) { assert x !in ys; }
    }
  }

  /** p is listed in its family, the family is allowed, and the address is not blacklisted. */
  predicate Pickable(r: Record, env: Env, p: Pick) {
    && p.ip !in r.black
    && (if p.isV6 then env.allowV6 && p.ip in r.v6 else env.allowV4 && p.ip in r.v4)
  }

  /** Exactly the listed, not blacklisted addresses of an allowed family can be picked, each from one place. */
  lemma AvailableExact(r: Record, env: Env)
    ensures forall p :: p in Available(r, env) <==> Pickable(r, env, p)
    ensures NoDup(r.v4) && NoDup(r.v6) ==> NoDup(Available(r, env))
  {
    UsableExact(r.v4, r.black, false);
    UsableExact(r.v6, r.black, true);
    var u4, u6 := Usable(r.v4, r.black, false), Usable(r.v6, r.black, true);
    assert forall i, j :: 0 <= i < |u4| && 0 <= j < |u6| ==> u4[i] in u4 && u6[j] in u6 && u4[i] != u6[j];
  }

  // ---------------------------------------------------------------- selections

  /** The record a selection works on: the stored one, or what a successful resolution saved. */
  function Resolved(m: map<Domain, Record>, d: Domain, ans: Answer): Record {
    if d in m then m[d] else Saved(EMPTY, ans.Found())
  }

  ghost predicate BatchStep(m: map<Domain, Record>, d: Domain, count: int, env: Env, ans: Answer,
                            m': map<Domain, Record>, out: Option<seq<Pick>>)
  {
    if count <= 0 || (d !in m && ans.Fails()) then m' == m && out == None
    else
      var base := Resolved(m, d, ans);
      && d in m' && m' == m[d := m'[d]]
      && var folded := m'[d].(next4 := base.next4);
      && IsFold(base, folded)
      && var a := Available(folded, env);
      if a == [] then m'[d].next4 == base.next4 && out == None
      else m'[d].next4 == (base.next4 + count) % |a| && out == Some(Cycle(a, base.next4, count))
  }

  ghost predicate SingleStep(m: map<Domain, Record>, d: Domain, env: Env, ans: Answer,
                             m': map<Domain, Record>, out: Option<Pick>)
  {
    if d !in m && ans.Fails() then m' == m && out == None
    else
      var base := Resolved(m, d, ans);
      && d in m' && m' == m[d := m'[d]]
      && var folded := m'[d].(next4 := base.next4);
      && IsFold(base, folded)
      && var a := Available(folded, env);
      if a == [] then m'[d].next4 == base.next4 && out == None
      else m'[d].next4 == (base.next4 + 1) % |a| && out == Some(a[base.next4 % |a|])
  }

  // ---------------------------------------------------------------- the reservation queue

  /** The reserved entries younger than the time-to-live, in order. */
  function Live(rs: seq<Reserved>, now: int): seq<Reserved> {
    if rs == [] then [] else
      var r := rs[|rs| - 1];
      Live(rs[..|rs| - 1], now) + (if now - r.at < RESERVED_TTL then [r] else [])
  }

  function Stamp(picks: seq<Pick>, at: int): (rs: seq<Reserved>)
    ensures |rs| == |picks|
  {
    seq(|picks|, i requires 0 <= i < |picks| => Reserved(picks[i], at))
  }

  function Queue(reserved: map<Domain, seq<Reserved>>, d: Domain): seq<Reserved> {
    if d in reserved then reserved[d] else []
  }

  /** How a call of NextIP got its answer. */
  datatype Via =
    | FromReserve
    | CutBatch(batch: seq<Pick>)
    | FailedBatch(mid: map<Domain, Record>)
    | Lone

  /** The inputs of one NextIP call; the host is asked once for the batch and once for the single pick. */
  datatype Request = Request(domain: Domain, now: int, env1: Env, ans1: Answer, env2: Env, ans2: Answer)

  ghost predicate NextStep(p: Pool, rq: Request, q: Pool, out: Option<Pick>, via: Via) {
    var d := rq.domain;
    var live := Live(Queue(p.reserved, d), rq.now);
    if live != [] then
      && via == FromReserve
      && out == Some(live[0].pick)
      && q == p.(reserved := p.reserved[d := live[1..]])
    else
      var swept := if Queue(p.reserved, d) != [] then p.reserved - {d} else p.reserved;
      && q.lastRequest == p.lastRequest[d := rq.now]
      && if d !in p.lastRequest || rq.now - p.lastRequest[d] < CONCURRENT_WINDOW then
           match via
           case CutBatch(batch) =>
             && BatchStep(p.records, d, BATCH_SIZE, rq.env1, rq.ans1, q.records, Some(batch))
             && batch != []
             && q.reserved == swept[d := Stamp(batch, rq.now)]
             && out == Some(batch[0])
           case FailedBatch(mid) =>
             && BatchStep(p.records, d, BATCH_SIZE, rq.env1, rq.ans1, mid, None)
             && SingleStep(mid, d, rq.env2, rq.ans2, q.records, out)
             && q.reserved == swept
           case _ => false
         else
           && via == Lone
           && SingleStep(p.records, d, rq.env2, rq.ans2, q.records, out)
           && q.reserved == swept
  }

  // ---------------------------------------------------------------- merges and runs

  ghost predicate MergeAll(m: map<Domain, Record>, peers: map<Domain, PeerRecord>, m': map<Domain, Record>) {
    && m'.Keys == m.Keys + peers.Keys
    && (forall d :: d in peers ==> IsMerge(Get(m, d), peers[d], m'[d]))
    && (forall d :: d in m && d !in peers ==> m'[d] == m[d])
  }

  datatype Event =
    | Save(domain: Domain, found: Record)
    | Merge(peers: map<Domain, PeerRecord>)
    | Report(domain: Domain, ip: Ip, status: int)
    | Latency(domain: Domain, ip: Ip, ms: int)
    | Batch(domain: Domain, count: int, env: Env, ans: Answer, picks: Option<seq<Pick>>)
    | Next(rq: Request, pick: Option<Pick>, via: Via)

  /** The transition one public operation makes, with its inputs and its answer recorded in the event. */
  ghost predicate Step(p: Pool, e: Event, q: Pool) {
    match e
    case Save(d, found) => q == p.(records := p.records[d := Saved(Get(p.records, d), found)])
    case Merge(peers) => MergeAll(p.records, peers, q.records) && q == p.(records := q.records)
    case Report(d, ip, status) =>
      q == if d == "" || ip.text == "" then p
           else p.(records := p.records[d := Reported(Get(p.records, d), ip, status)])
    case Latency(d, ip, ms) =>
      q == if d == "" || ip.text == "" || ms <= 0 then p
           else p.(records := p.records[d := Timed(Get(p.records, d), ip, ms)])
    case Batch(d, count, env, ans, picks) =>
      BatchStep(p.records, d, count, env, ans, q.records, picks) && q == p.(records := q.records)
    case Next(rq, pick, via) => NextStep(p, rq, q, pick, via)
  }

  /** Resolver answers and saved lists name each address once. */
  ghost predicate GoodInput(e: Event) {
    match e
    case Save(_, found) => NoDup(found.v4) && NoDup(found.v6)
    case Batch(_, _, _, ans, _) => NoDup(ans.v4) && NoDup(ans.v6)
    case Next(rq, _, _) => NoDup(rq.ans1.v4) && NoDup(rq.ans1.v6) && NoDup(rq.ans2.v4) && NoDup(rq.ans2.v6)
    case _ => true
  }

  /** s[i+1] is s[i] after es[i]. */
  ghost predicate Run(s: seq<Pool>, es: seq<Event>) {
    && |s| == |es| + 1
    && (forall i :: 0 <= i < |es| ==> Step(s[i], es[i], s[i + 1]))
  }

  // ---------------------------------------------------------------- the record invariant

  lemma EmptyInv()
    ensures RecordInv(EMPTY)
  {
  }

  lemma ResolvedInv(m: map<Domain, Record>, d: Domain, ans: Answer)
    requires AllInv(m) && NoDup(ans.v4) && NoDup(ans.v6)
    ensures RecordInv(Resolved(m, d, ans))
  {
    SaveKeepsOldAddsNew(EMPTY, ans.Found());
  }

  /** Under the invariant a batch changes nothing but the index: picking never edits the lists. */
  lemma BatchMovesIndexOnly(m: map<Domain, Record>, d: Domain, count: int, env: Env, ans: Answer,
                            m': map<Domain, Record>, out: Option<seq<Pick>>)
    requires BatchStep(m, d, count, env, ans, m', out)
    requires AllInv(m) && NoDup(ans.v4) && NoDup(ans.v6)
    ensures AllInv(m')
    ensures d in m' ==> m' == m[d := Resolved(m, d, ans).(next4 := m'[d].next4)]
    ensures d !in m' ==> m' == m
    ensures d in m && out == None ==> m' == m
  {
    if count > 0 && (d in m || !ans.Fails()) {
      var base := Resolved(m, d, ans);
      ResolvedInv(m, d, ans);
      FoldIsNoop(base, m'[d].(next4 := base.next4));
    }
  }

  lemma SingleMovesIndexOnly(m: map<Domain, Record>, d: Domain, env: Env, ans: Answer,
                             m': map<Domain, Record>, out: Option<Pick>)
    requires SingleStep(m, d, env, ans, m', out)
    requires AllInv(m) && NoDup(ans.v4) && NoDup(ans.v6)
    ensures AllInv(m')
    ensures d in m' ==> m' == m[d := Resolved(m, d, ans).(next4 := m'[d].next4)]
    ensures d !in m' ==> m' == m
    ensures d in m && out == None ==> m' == m
  {
    if d in m || !ans.Fails() {
      var base := Resolved(m, d, ans);
      ResolvedInv(m, d, ans);
      FoldIsNoop(base, m'[d].(next4 := base.next4));
    }
  }

  /** Every operation keeps the record invariant of every domain. */
  lemma StepKeepsInv(p: Pool, e: Event, q: Pool)
    requires Step(p, e, q) && AllInv(p.records) && GoodInput(e)
    ensures AllInv(q.records)
  {
    EmptyInv();
    hide RecordInv, BatchStep, SingleStep, NextStep, IsMerge, Saved, Reported, Timed, NoDup;
    match e
    case Save(d, found) => SaveKeepsOldAddsNew(Get(p.records, d), found);
    case Merge(peers) =>
      forall d | d in q.records ensures RecordInv(q.records[d]) {
        if d in peers { MergeOfInv(Get(p.records, d), peers[d], q.records[d]); }
      }
    case Report(d, ip, status) => ReportKeepsInv(Get(p.records, d), ip, status);
    case Latency(d, ip, ms) => TimedKeepsInv(Get(p.records, d), ip, ms);
    case Batch(d, count, env, ans, picks) =>
      BatchMovesIndexOnly(p.records, d, count, env, ans, q.records, picks);
    case Next(rq, pick, via) => NextKeepsInv(p, rq, q, pick, via);
  }

  lemma MergeOfInv(a: Record, p: PeerRecord, b: Record)
    requires IsMerge(a, p, b) && RecordInv(a)
    ensures RecordInv(b)
  {
    MergeKeepsInv(a, p, b);
  }

  lemma TimedKeepsInv(r: Record, ip: Ip, ms: int)
    requires RecordInv(r)
    ensures RecordInv(Timed(r, ip, ms))
  {
  }

  lemma NextKeepsInv(p: Pool, rq: Request, q: Pool, out: Option<Pick>, via: Via)
    requires NextStep(p, rq, q, out, via) && AllInv(p.records)
    requires NoDup(rq.ans1.v4) && NoDup(rq.ans1.v6) && NoDup(rq.ans2.v4) && NoDup(rq.ans2.v6)
    ensures AllInv(q.records)
    ensures rq.domain in p.records && out == None ==> q.records == p.records
  {
    match via
    case FromReserve =>
    case CutBatch(batch) =>
      BatchMovesIndexOnly(p.records, rq.domain, BATCH_SIZE, rq.env1, rq.ans1, q.records, Some(batch));
    case FailedBatch(mid) =>
      BatchMovesIndexOnly(p.records, rq.domain, BATCH_SIZE, rq.env1, rq.ans1, mid, None);
      SingleMovesIndexOnly(mid, rq.domain, rq.env2, rq.ans2, q.records, out);
    case Lone =>
      SingleMovesIndexOnly(p.records, rq.domain, rq.env2, rq.ans2, q.records, out);
  }

  /** From an empty pool, any run of operations on well-formed inputs satisfies the invariant throughout. */
  lemma {:induction false} RunKeepsInv(s: seq<Pool>, es: seq<Event>, i: nat)
    requires Run(s, es) && i <= |es|
    requires AllInv(s[0].records)
    requires forall j :: 0 <= j < |es| ==> GoodInput(es[j])
    ensures AllInv(s[i].records)
  {
    hide Step, RecordInv, GoodInput;
    if i > 0 {
      RunKeepsInv(s, es, i - 1);
      StepKeepsInv(s[i - 1], es[i - 1], s[i]);
    }
  }
}
