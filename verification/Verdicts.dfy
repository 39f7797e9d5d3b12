/** The last verdict decides: what puts an address on a domain's blacklist and whitelist, over every run. */
module Verdicts {
  import opened Lists
  import opened Records
  import opened PoolSpec

  predicate Reports(e: Event, d: Domain, x: Ip, status: int) {
    e.Report? && e.domain == d && e.ip == x && e.status == status && d != "" && x.text != ""
  }

  predicate NamedByPeer(e: Event, d: Domain, x: Ip) {
    e.Merge? && d in e.peers && (x in e.peers[d].v4 || x in e.peers[d].v6)
  }

  predicate Vouches(e: Event, d: Domain, x: Ip) {
    Reports(e, d, x, 200) || NamedByPeer(e, d, x)
  }

  /** d's two sets are the same in both maps. */
  ghost predicate SameVerdicts(m: map<Domain, Record>, m': map<Domain, Record>, d: Domain) {
    Get(m', d).black == Get(m, d).black && Get(m', d).white == Get(m, d).white
  }

  lemma BatchKeepsVerdicts(m: map<Domain, Record>, d: Domain, count: int, env: Env, ans: Answer,
                           m': map<Domain, Record>, out: Option<seq<Pick>>, x: Domain)
    requires BatchStep(m, d, count, env, ans, m', out)
    ensures SameVerdicts(m, m', x)
  {
    hide Extends, Available, Combine;
  }

  lemma SingleKeepsVerdicts(m: map<Domain, Record>, d: Domain, env: Env, ans: Answer,
                            m': map<Domain, Record>, out: Option<Pick>, x: Domain)
    requires SingleStep(m, d, env, ans, m', out)
    ensures SameVerdicts(m, m', x)
  {
    hide Extends, Available, Combine;
  }

  lemma NextKeepsVerdicts(p: Pool, rq: Request, q: Pool, out: Option<Pick>, via: Via, x: Domain)
    requires NextStep(p, rq, q, out, via)
    ensures SameVerdicts(p.records, q.records, x)
  {
    hide BatchStep, SingleStep;
    match via
    case FromReserve =>
    case CutBatch(batch) =>
      BatchKeepsVerdicts(p.records, rq.domain, BATCH_SIZE, rq.env1, rq.ans1, q.records, Some(batch), x);
    case FailedBatch(mid) =>
      BatchKeepsVerdicts(p.records, rq.domain, BATCH_SIZE, rq.env1, rq.ans1, mid, None, x);
      SingleKeepsVerdicts(mid, rq.domain, rq.env2, rq.ans2, q.records, out, x);
    case Lone => SingleKeepsVerdicts(p.records, rq.domain, rq.env2, rq.ans2, q.records, out, x);
  }

  lemma SaveKeepsVerdicts(r: Record, found: Record)
    ensures Saved(r, found).black == r.black && Saved(r, found).white == r.white
  {
  }

  lemma ReportVerdict(r: Record, ip: Ip, status: int, x: Ip)
    ensures var t := Reported(r, ip, status);
      && (x in t.black <==> (ip == x && status == 403) || (x in r.black && !(ip == x && status == 200)))
      && (x in t.white <==> (ip == x && status == 200) || (x in r.white && !(ip == x && status == 403)))
  {
    var s := WithObserved(r, ip);
    assert s.black == r.black && s.white == r.white;
  }

  lemma MergeVerdict(a: Record, p: PeerRecord, b: Record, x: Ip)
    requires IsMerge(a, p, b)
    ensures b.black == a.black
    ensures x in b.white <==> x in a.white || x in p.v4 || x in p.v6
  {
  }

  /** What one step does to the verdict on x: only a 403, a 200 or a peer naming the address changes it. */
  ghost predicate VerdictMoves(m: map<Domain, Record>, e: Event, m': map<Domain, Record>, d: Domain, x: Ip) {
    && (x in Get(m', d).black <==>
        Reports(e, d, x, 403) || (x in Get(m, d).black && !Reports(e, d, x, 200)))
    && (x in Get(m', d).white <==>
        Vouches(e, d, x) || (x in Get(m, d).white && !Reports(e, d, x, 403)))
  }

  lemma SaveStepVerdict(p: Pool, e: Event, q: Pool, d: Domain, x: Ip)
    requires Step(p, e, q) && (e.Save? || e.Latency?)
    ensures VerdictMoves(p.records, e, q.records, d, x)
  {
    if e.Save? { SaveKeepsVerdicts(Get(p.records, e.domain), e.found); }
  }

  lemma ReportStepVerdict(p: Pool, e: Event, q: Pool, d: Domain, x: Ip)
    requires Step(p, e, q) && e.Report?
    ensures VerdictMoves(p.records, e, q.records, d, x)
  {
    ReportVerdict(Get(p.records, e.domain), e.ip, e.status, x);
  }

  lemma MergeAllVerdict(m: map<Domain, Record>, peers: map<Domain, PeerRecord>, m': map<Domain, Record>, d: Domain, x: Ip)
    requires MergeAll(m, peers, m')
    ensures Get(m', d).black == Get(m, d).black
    ensures x in Get(m', d).white <==>
      x in Get(m, d).white || (d in peers && (x in peers[d].v4 || x in peers[d].v6))
  {
    if d in peers {
      MergeVerdict(Get(m, d), peers[d], m'[d], x);
    }
  }

  lemma MergeMoves(m: map<Domain, Record>, peers: map<Domain, PeerRecord>, m': map<Domain, Record>, d: Domain, x: Ip)
    requires Get(m', d).black == Get(m, d).black
    requires x in Get(m', d).white <==>
      x in Get(m, d).white || (d in peers && (x in peers[d].v4 || x in peers[d].v6))
    ensures VerdictMoves(m, Merge(peers), m', d, x)
  {
  }

  lemma MergeStepVerdict(p: Pool, e: Event, q: Pool, d: Domain, x: Ip)
    requires Step(p, e, q) && e.Merge?
    ensures VerdictMoves(p.records, e, q.records, d, x)
  {
    MergeAllVerdict(p.records, e.peers, q.records, d, x);
    MergeMoves(p.records, e.peers, q.records, d, x);
  }

  lemma StepVerdict(p: Pool, e: Event, q: Pool, d: Domain, x: Ip)
    requires Step(p, e, q)
    ensures VerdictMoves(p.records, e, q.records, d, x)
  {
    hide BatchStep, NextStep, MergeAll, Saved, Reported, Timed;
    if e.Save? || e.Latency? {
      SaveStepVerdict(p, e, q, d, x);
    } else if e.Report? {
      ReportStepVerdict(p, e, q, d, x);
    } else if e.Merge? {
      MergeStepVerdict(p, e, q, d, x);
    } else if e.Next? {
      NextKeepsVerdicts(p, e.rq, q, e.pick, e.via, d);
    } else {
      BatchKeepsVerdicts(p.records, e.domain, e.count, e.env, e.ans, q.records, e.picks, d);
    }
  }

  ghost predicate NoneAfter(es: seq<Event>, off: Event -> bool, j: int, i: nat)
    requires -1 <= j && i <= |es|
  {
    forall k :: j < k < i ==> !off(es[k])
  }

  /** Some event before i satisfies `on` and no event between it and i satisfies `off`. */
  ghost predicate OnSinceOff(es: seq<Event>, on: Event -> bool, off: Event -> bool, i: nat)
    requires i <= |es|
  {
    exists j :: 0 <= j < i && on(es[j]) && NoneAfter(es, off, j, i)
  }

  lemma OnSinceOffStep(es: seq<Event>, on: Event -> bool, off: Event -> bool, i: nat)
    requires i < |es|
    ensures OnSinceOff(es, on, off, i + 1) <==> on(es[i]) || (OnSinceOff(es, on, off, i) && !off(es[i]))
  {
    if on(es[i]) {
      assert NoneAfter(es, off, i, i + 1);
      assert OnSinceOff(es, on, off, i + 1);
    } else if OnSinceOff(es, on, off, i + 1) {
      var j :| 0 <= j < i + 1 && on(es[j]) && NoneAfter(es, off, j, i + 1);
      assert j < i;
    }
  }

  /** Blacklisted exactly when the latest 200-or-403 report for the address was a 403. */
  lemma {:induction false} LatestReportDecides(s: seq<Pool>, es: seq<Event>, d: Domain, x: Ip, i: nat)
    requires Run(s, es) && s[0].records == map[] && i <= |es|
    ensures x in Get(s[i].records, d).black <==>
      OnSinceOff(es, e => Reports(e, d, x, 403), e => Reports(e, d, x, 200), i)
  {
    if i > 0 {
      LatestReportDecides(s, es, d, x, i - 1);
      StepVerdict(s[i - 1], es[i - 1], s[i], d, x);
      OnSinceOffStep(es, e => Reports(e, d, x, 403), e => Reports(e, d, x, 200), i - 1);
    }
  }

  /** Whitelisted exactly when a 200 report or a peer naming the address came after its last 403 report. */
  lemma {:induction false} VouchedSinceLastBan(s: seq<Pool>, es: seq<Event>, d: Domain, x: Ip, i: nat)
    requires Run(s, es) && s[0].records == map[] && i <= |es|
    ensures x in Get(s[i].records, d).white <==>
      OnSinceOff(es, e => Vouches(e, d, x), e => Reports(e, d, x, 403), i)
  {
    if i > 0 {
      VouchedSinceLastBan(s, es, d, x, i - 1);
      StepVerdict(s[i - 1], es[i - 1], s[i], d, x);
      OnSinceOffStep(es, e => Vouches(e, d, x), e => Reports(e, d, x, 403), i - 1);
    }
  }
}
