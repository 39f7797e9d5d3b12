/** Any number of nodes exchanging DNS records: messages may be delayed, reordered or lost. */
module Gossip {
  import opened Lists
  import opened Records
  import opened PoolSpec
  import opened Exchanges

  type NodeId = nat

  datatype Message = Message(sender: NodeId, receiver: NodeId, lists: map<Domain, PeerRecord>)

  /** Every request and reply ever sent, in order, and which of them have been taken off the wire. */
  datatype Network = Network(
    nodes: map<NodeId, Pool>,
    requests: seq<Message>, served: set<nat>,
    replies: seq<Message>, absorbed: set<nat>)

  /** Push(a, b): a sends its lists to b. Serve(i): request i's receiver merges it and answers. Absorb(i): reply i arrives. */
  datatype Action =
    | Local(node: NodeId, event: Event)
    | Push(sender: NodeId, receiver: NodeId)
    | Serve(request: nat)
    | Absorb(reply: nat)

  ghost predicate NodeMerges(p: Pool, lists: map<Domain, PeerRecord>, q: Pool) {
    MergeAll(p.records, lists, q.records) && q == p.(records := q.records)
  }

  ghost predicate NetStep(s: Network, act: Action, t: Network) {
    match act
    case Local(n, e) =>
      && n in s.nodes && n in t.nodes && !e.Merge?
      && Step(s.nodes[n], e, t.nodes[n])
      && t == s.(nodes := s.nodes[n := t.nodes[n]])
    case Push(a, b) =>
      && a in s.nodes && b in s.nodes && a != b
      && t == s.(requests := s.requests + [Message(a, b, RequestOf(s.nodes[a].records))])
    case Serve(i) =>
      && i < |s.requests| && i !in s.served
      && var m := s.requests[i];
      && m.receiver in s.nodes && m.receiver in t.nodes
      && NodeMerges(s.nodes[m.receiver], m.lists, t.nodes[m.receiver])
      && t == s.(nodes := s.nodes[m.receiver := t.nodes[m.receiver]],
                 served := s.served + {i},
                 replies := s.replies + [Message(m.receiver, m.sender,
                   ReplyOf(s.nodes[m.receiver].records, m.lists, t.nodes[m.receiver].records))])
    case Absorb(i) =>
      && i < |s.replies| && i !in s.absorbed
      && var m := s.replies[i];
      && m.receiver in s.nodes && m.receiver in t.nodes
      && NodeMerges(s.nodes[m.receiver], m.lists, t.nodes[m.receiver])
      && t == s.(nodes := s.nodes[m.receiver := t.nodes[m.receiver]], absorbed := s.absorbed + {i})
  }

  ghost predicate NetRun(s: seq<Network>, acts: seq<Action>) {
    && |s| == |acts| + 1
    && s[0].requests == [] && s[0].replies == []
    && (forall i :: 0 <= i < |acts| ==> NetStep(s[i], acts[i], s[i + 1]))
  }

  // ---------------------------------------------------------------- nothing is made up

  /** x is a candidate or a whitelist entry of d. */
  predicate Holds(m: map<Domain, Record>, d: Domain, x: Ip) {
    d in m && (x in m[d].v4 || x in m[d].v6 || x in m[d].white)
  }

  predicate Carries(lists: map<Domain, PeerRecord>, d: Domain, x: Ip) {
    d in lists && (x in lists[d].v4 || x in lists[d].v6)
  }

  /** The local operation brings x in for d: it was resolved, saved or observed here. */
  predicate Finds(e: Event, d: Domain, x: Ip) {
    match e
    case Save(d', found) => d' == d && (x in found.v4 || x in found.v6)
    case Report(d', ip, _) => d' == d && ip == x
    case Batch(d', _, _, ans, _) => d' == d && (x in ans.v4 || x in ans.v6)
    case Next(rq, _, _) => rq.domain == d && (x in rq.ans1.v4 || x in rq.ans1.v6 || x in rq.ans2.v4 || x in rq.ans2.v6)
    case _ => false
  }

  lemma SaveHolds(r: Record, found: Record, x: Ip)
    requires x in Saved(r, found).v4 || x in Saved(r, found).v6 || x in Saved(r, found).white
    ensures x in r.v4 || x in r.v6 || x in r.white || x in found.v4 || x in found.v6
  {
    AppendNewFacts(r.v4, found.v4);
    AppendNewFacts(r.v6, found.v6);
    assert x in Saved(r, found).v4 ==> x in Elements(Saved(r, found).v4);
    assert x in Saved(r, found).v6 ==> x in Elements(Saved(r, found).v6);
  }

  lemma FoldHolds(a: Record, b: Record, x: Ip)
    requires IsFold(a, b)
    requires x in b.v4 || x in b.v6 || x in b.white
    ensures x in a.v4 || x in a.v6 || x in a.white
  {
    FoldNormalises(a, b);
    assert x in b.v4 ==> x in Elements(b.v4);
    assert x in b.v6 ==> x in Elements(b.v6);
  }

  lemma ResolvedHolds(m: map<Domain, Record>, d: Domain, ans: Answer, x: Ip)
    requires var r := Resolved(m, d, ans); x in r.v4 || x in r.v6 || x in r.white
    ensures Holds(m, d, x) || x in ans.v4 || x in ans.v6
  {
    if d !in m { SaveHolds(EMPTY, ans.Found(), x); }
  }

  lemma BatchHolds(m: map<Domain, Record>, d: Domain, count: int, env: Env, ans: Answer,
                   m': map<Domain, Record>, out: Option<seq<Pick>>, d': Domain, x: Ip)
    requires BatchStep(m, d, count, env, ans, m', out) && Holds(m', d', x)
    ensures Holds(m, d', x) || (d' == d && (x in ans.v4 || x in ans.v6))
  {
    hide IsFold, Available, Saved;
    if d' == d && count > 0 && (d in m || !ans.Fails()) {
      var base := Resolved(m, d, ans);
      FoldHolds(base, m'[d].(next4 := base.next4), x);
      ResolvedHolds(m, d, ans, x);
    }
  }

  lemma SingleHolds(m: map<Domain, Record>, d: Domain, env: Env, ans: Answer,
                    m': map<Domain, Record>, out: Option<Pick>, d': Domain, x: Ip)
    requires SingleStep(m, d, env, ans, m', out) && Holds(m', d', x)
    ensures Holds(m, d', x) || (d' == d && (x in ans.v4 || x in ans.v6))
  {
    hide IsFold, Available, Saved;
    if d' == d && (d in m || !ans.Fails()) {
      var base := Resolved(m, d, ans);
      FoldHolds(base, m'[d].(next4 := base.next4), x);
      ResolvedHolds(m, d, ans, x);
    }
  }

  lemma NextHolds(p: Pool, rq: Request, q: Pool, out: Option<Pick>, via: Via, d: Domain, x: Ip)
    requires NextStep(p, rq, q, out, via) && Holds(q.records, d, x)
    ensures Holds(p.records, d, x) || Finds(Next(rq, out, via), d, x)
  {
    hide BatchStep, SingleStep, Holds;
    match via
    case FromReserve =>
    case CutBatch(batch) =>
      BatchHolds(p.records, rq.domain, BATCH_SIZE, rq.env1, rq.ans1, q.records, Some(batch), d, x);
    case FailedBatch(mid) =>
      SingleHolds(mid, rq.domain, rq.env2, rq.ans2, q.records, out, d, x);
      if Holds(mid, d, x) {
        BatchHolds(p.records, rq.domain, BATCH_SIZE, rq.env1, rq.ans1, mid, None, d, x);
      }
    case Lone => SingleHolds(p.records, rq.domain, rq.env2, rq.ans2, q.records, out, d, x);
  }

  lemma ReportHolds(r: Record, ip: Ip, status: int, x: Ip)
    requires var t := Reported(r, ip, status); x in t.v4 || x in t.v6 || x in t.white
    ensures x in r.v4 || x in r.v6 || x in r.white || x == ip
  {
  }

  /** A local operation adds no address but those it finds. */
  lemma LocalHolds(p: Pool, e: Event, q: Pool, d: Domain, x: Ip)
    requires Step(p, e, q) && !e.Merge? && Holds(q.records, d, x)
    ensures Holds(p.records, d, x) || Finds(e, d, x)
  {
    hide Saved, Reported, NextStep, BatchStep, MergeAll;
    match e
    case Save(d', found) => if d' == d { SaveHolds(Get(p.records, d), found, x); }
    case Report(d', ip, status) =>
      if d' == d && d != "" && ip.text != "" { ReportHolds(Get(p.records, d), ip, status, x); }
    case Latency(_, _, _) =>
    case Batch(d', count, env, ans, picks) =>
      BatchHolds(p.records, d', count, env, ans, q.records, picks, d, x);
    case Next(rq, pick, via) => NextHolds(p, rq, q, pick, via, d, x);
  }

  lemma MergeRecordHolds(a: Record, p: PeerRecord, b: Record, x: Ip)
    requires IsMerge(a, p, b)
    requires x in b.v4 || x in b.v6 || x in b.white
    ensures x in a.v4 || x in a.v6 || x in a.white || x in p.v4 || x in p.v6
  {
    hide IsMerge;
    MergeIsJoin(a, p, b);
    assert x in b.v4 ==> x in Elements(b.v4);
    assert x in b.v6 ==> x in Elements(b.v6);
  }

  /** A merge adds no address but those of the message. */
  lemma MergeHolds(m: map<Domain, Record>, lists: map<Domain, PeerRecord>, m': map<Domain, Record>, d: Domain, x: Ip)
    requires MergeAll(m, lists, m') && Holds(m', d, x)
    ensures Holds(m, d, x) || Carries(lists, d, x)
  {
    hide IsMerge;
    if d in lists { MergeRecordHolds(Get(m, d), lists[d], m'[d], x); }
  }

  lemma ReplyCarries(m: map<Domain, Record>, req: map<Domain, PeerRecord>, m': map<Domain, Record>, d: Domain, x: Ip)
    requires m.Keys <= m'.Keys && Carries(ReplyOf(m, req, m'), d, x)
    ensures Holds(m, d, x) || Holds(m', d, x)
  {
    AliasElements(m[d].v4, m'[d].v4);
    AliasElements(m[d].v6, m'[d].v6);
    if d in req {
      var v := Views(m[d], m'[d]);
      assert x in v.v4 ==> x in Elements(v.v4);
      assert x in v.v6 ==> x in Elements(v.v6);
    }
  }

  /** Some node held x for d at the start, or found it by a local operation before step i. */
  ghost predicate Sourced(s: seq<Network>, acts: seq<Action>, i: nat, d: Domain, x: Ip)
    requires |s| > 0 && i <= |acts|
  {
    || (exists n :: n in s[0].nodes && Holds(s[0].nodes[n].records, d, x))
    || (exists j :: 0 <= j < i && acts[j].Local? && Finds(acts[j].event, d, x))
  }

  /** Everything a node holds or a message carries was found somewhere by a local operation. */
  ghost predicate AllSourced(s: seq<Network>, acts: seq<Action>, i: nat)
    requires |s| == |acts| + 1 && i <= |acts|
  {
    && (forall n, d, x :: n in s[i].nodes && Holds(s[i].nodes[n].records, d, x) ==> Sourced(s, acts, i, d, x))
    && (forall k, d, x :: 0 <= k < |s[i].requests| && Carries(s[i].requests[k].lists, d, x) ==> Sourced(s, acts, i, d, x))
    && (forall k, d, x :: 0 <= k < |s[i].replies| && Carries(s[i].replies[k].lists, d, x) ==> Sourced(s, acts, i, d, x))
  }

  lemma SourcedLater(s: seq<Network>, acts: seq<Action>, i: nat, d: Domain, x: Ip)
    requires |s| > 0 && i < |acts| && Sourced(s, acts, i, d, x)
    ensures Sourced(s, acts, i + 1, d, x)
  {
  }

  lemma NodeStaysSourced(s: seq<Network>, acts: seq<Action>, i: nat, n: NodeId, d: Domain, x: Ip)
    requires |s| == |acts| + 1 && i < |acts| && AllSourced(s, acts, i) && NetStep(s[i], acts[i], s[i + 1])
    requires n in s[i + 1].nodes && Holds(s[i + 1].nodes[n].records, d, x)
    ensures Sourced(s, acts, i + 1, d, x)
  {
    hide Step, MergeAll, Holds, Carries, Sourced, Finds;
    var p, q := s[i], s[i + 1];
    if n in p.nodes && Holds(p.nodes[n].records, d, x) {
      SourcedLater(s, acts, i, d, x);
    } else {
      match acts[i]
      case Local(n', e) =>
        LocalHolds(p.nodes[n], e, q.nodes[n], d, x);
        FoundIsSourced(s, acts, i, d, x);
      case Push(_, _) =>
      case Serve(k) =>
        MergeHolds(p.nodes[n].records, p.requests[k].lists, q.nodes[n].records, d, x);
        SourcedLater(s, acts, i, d, x);
      case Absorb(k) =>
        MergeHolds(p.nodes[n].records, p.replies[k].lists, q.nodes[n].records, d, x);
        SourcedLater(s, acts, i, d, x);
    }
  }

  lemma FoundIsSourced(s: seq<Network>, acts: seq<Action>, i: nat, d: Domain, x: Ip)
    requires |s| > 0 && i < |acts| && acts[i].Local? && Finds(acts[i].event, d, x)
    ensures Sourced(s, acts, i + 1, d, x)
  {
  }

  lemma RequestStaysSourced(s: seq<Network>, acts: seq<Action>, i: nat, k: nat, d: Domain, x: Ip)
    requires |s| == |acts| + 1 && i < |acts| && AllSourced(s, acts, i) && NetStep(s[i], acts[i], s[i + 1])
    requires k < |s[i + 1].requests| && Carries(s[i + 1].requests[k].lists, d, x)
    ensures Sourced(s, acts, i + 1, d, x)
  {
    hide Step, MergeAll, Sourced, Finds;
    if k == |s[i].requests| {
      assert acts[i].Push?;
      assert Holds(s[i].nodes[acts[i].sender].records, d, x);
    }
    SourcedLater(s, acts, i, d, x);
  }

  lemma ReplyStaysSourced(s: seq<Network>, acts: seq<Action>, i: nat, k: nat, d: Domain, x: Ip)
    requires |s| == |acts| + 1 && i < |acts| && AllSourced(s, acts, i) && NetStep(s[i], acts[i], s[i + 1])
    requires k < |s[i + 1].replies| && Carries(s[i + 1].replies[k].lists, d, x)
    ensures Sourced(s, acts, i + 1, d, x)
  {
    hide Step, Sourced, Finds, Holds, Carries, IsMerge;
    if k == |s[i].replies| {
      var m := s[i].requests[acts[i].request];
      ReplyCarries(s[i].nodes[m.receiver].records, m.lists, s[i + 1].nodes[m.receiver].records, d, x);
      if Holds(s[i].nodes[m.receiver].records, d, x) {
        SourcedLater(s, acts, i, d, x);
      } else {
        NodeStaysSourced(s, acts, i, m.receiver, d, x);
      }
    } else {
      SourcedLater(s, acts, i, d, x);
    }
  }

  /** In every reachable state, every address at a node or on the wire was discovered locally by some node. */
  lemma {:induction false} NothingMadeUp(s: seq<Network>, acts: seq<Action>, i: nat)
    requires NetRun(s, acts) && i <= |acts|
    ensures AllSourced(s, acts, i)
  {
    hide NetStep, Holds, Carries;
    if i > 0 {
      NothingMadeUp(s, acts, i - 1);
      forall n, d, x | n in s[i].nodes && Holds(s[i].nodes[n].records, d, x) ensures Sourced(s, acts, i, d, x) {
        NodeStaysSourced(s, acts, i - 1, n, d, x);
      }
      forall k, d, x | 0 <= k < |s[i].requests| && Carries(s[i].requests[k].lists, d, x)
        ensures Sourced(s, acts, i, d, x)
      {
        RequestStaysSourced(s, acts, i - 1, k, d, x);
      }
      forall k, d, x | 0 <= k < |s[i].replies| && Carries(s[i].replies[k].lists, d, x)
        ensures Sourced(s, acts, i, d, x)
      {
        ReplyStaysSourced(s, acts, i - 1, k, d, x);
      }
    }
  }

  // ---------------------------------------------------------------- nothing is lost

  /** Every candidate of a is one of b, domain by domain and family by family. */
  ghost predicate Covers(a: map<Domain, Record>, b: map<Domain, Record>) {
    forall d :: Elements(Get(a, d).v4) <= Elements(Get(b, d).v4) && Elements(Get(a, d).v6) <= Elements(Get(b, d).v6)
  }

  lemma CoversTransitive(a: map<Domain, Record>, b: map<Domain, Record>, c: map<Domain, Record>)
    requires Covers(a, b) && Covers(b, c)
    ensures Covers(a, c)
  {
  }

  ghost predicate GrowsTo(a: Record, b: Record) {
    Elements(a.v4) <= Elements(b.v4) && Elements(a.v6) <= Elements(b.v6)
  }

  lemma CoverOne(m: map<Domain, Record>, d: Domain, r: Record, m': map<Domain, Record>)
    requires m' == m[d := r] && GrowsTo(Get(m, d), r)
    ensures Covers(m, m')
  {
  }

  lemma SelectGrows(m: map<Domain, Record>, d: Domain, ans: Answer, folded: Record)
    requires IsFold(Resolved(m, d, ans), folded)
    ensures GrowsTo(Get(m, d), folded)
  {
    FoldNormalises(Resolved(m, d, ans), folded);
    ElementsEmpty<Ip>([]);
  }

  lemma BatchCovers(m: map<Domain, Record>, d: Domain, count: int, env: Env, ans: Answer,
                    m': map<Domain, Record>, out: Option<seq<Pick>>)
    requires BatchStep(m, d, count, env, ans, m', out)
    ensures Covers(m, m')
  {
    hide IsFold, Available, Resolved, Covers;
    if count > 0 && (d in m || !ans.Fails()) {
      var base := Resolved(m, d, ans);
      SelectGrows(m, d, ans, m'[d].(next4 := base.next4));
      CoverOne(m, d, m'[d], m');
    } else {
      CoverSelf(m);
    }
  }

  lemma SingleCovers(m: map<Domain, Record>, d: Domain, env: Env, ans: Answer,
                     m': map<Domain, Record>, out: Option<Pick>)
    requires SingleStep(m, d, env, ans, m', out)
    ensures Covers(m, m')
  {
    hide IsFold, Available, Resolved, Covers;
    if d in m || !ans.Fails() {
      var base := Resolved(m, d, ans);
      SelectGrows(m, d, ans, m'[d].(next4 := base.next4));
      CoverOne(m, d, m'[d], m');
    } else {
      CoverSelf(m);
    }
  }

  lemma CoverSelf(m: map<Domain, Record>)
    ensures Covers(m, m)
  {
  }

  lemma MergeCovers(m: map<Domain, Record>, lists: map<Domain, PeerRecord>, m': map<Domain, Record>)
    requires MergeAll(m, lists, m')
    ensures Covers(m, m')
    ensures forall d :: d in lists ==>
      Elements(lists[d].v4) <= Elements(Get(m', d).v4) && Elements(lists[d].v6) <= Elements(Get(m', d).v6)
  {
    hide IsMerge, Elements;
    forall d ensures GrowsTo(Get(m, d), Get(m', d))
      ensures d in lists ==>
        Elements(lists[d].v4) <= Elements(Get(m', d).v4) && Elements(lists[d].v6) <= Elements(Get(m', d).v6)
    {
      MergeAllAt(m, lists, m', d);
      if d in lists { MergeInflates(Get(m, d), lists[d], Get(m', d)); }
    }
  }

  lemma ReportGrows(r: Record, ip: Ip, status: int)
    ensures GrowsTo(r, Reported(r, ip, status))
  {
    ElementsSnoc(r.v4, ip);
    ElementsSnoc(r.v6, ip);
  }

  lemma LocalCovers(p: Pool, e: Event, q: Pool)
    requires Step(p, e, q) && !e.Merge?
    ensures Covers(p.records, q.records)
  {
    hide Covers, Saved, Reported, Timed, BatchStep, SingleStep, MergeAll, GrowsTo;
    CoverSelf(p.records);
    match e
    case Save(d, found) =>
      SaveGrows(Get(p.records, d), found);
      CoverOne(p.records, d, Saved(Get(p.records, d), found), q.records);
    case Report(d, ip, status) =>
      if d != "" && ip.text != "" {
        ReportGrows(Get(p.records, d), ip, status);
        CoverOne(p.records, d, Reported(Get(p.records, d), ip, status), q.records);
      }
    case Latency(d, ip, ms) =>
      if d != "" && ip.text != "" && ms > 0 {
        TimedGrows(Get(p.records, d), ip, ms);
        CoverOne(p.records, d, Timed(Get(p.records, d), ip, ms), q.records);
      }
    case Batch(d, count, env, ans, picks) => BatchCovers(p.records, d, count, env, ans, q.records, picks);
    case Next(rq, pick, via) => NextCovers(p, rq, q, pick, via);
  }

  lemma SaveGrows(r: Record, found: Record)
    ensures GrowsTo(r, Saved(r, found))
  {
    SaveKeepsOldAddsNew(r, found);
  }

  lemma TimedGrows(r: Record, ip: Ip, ms: int)
    ensures GrowsTo(r, Timed(r, ip, ms))
  {
  }

  lemma NextCovers(p: Pool, rq: Request, q: Pool, out: Option<Pick>, via: Via)
    requires NextStep(p, rq, q, out, via)
    ensures Covers(p.records, q.records)
  {
    hide BatchStep, SingleStep, Covers;
    CoverSelf(p.records);
    match via
    case FromReserve =>
    case CutBatch(batch) =>
      BatchCovers(p.records, rq.domain, BATCH_SIZE, rq.env1, rq.ans1, q.records, Some(batch));
    case FailedBatch(mid) =>
      BatchCovers(p.records, rq.domain, BATCH_SIZE, rq.env1, rq.ans1, mid, None);
      SingleCovers(mid, rq.domain, rq.env2, rq.ans2, q.records, out);
      CoversTransitive(p.records, mid, q.records);
    case Lone => SingleCovers(p.records, rq.domain, rq.env2, rq.ans2, q.records, out);
  }

  lemma NetStepCovers(s: Network, act: Action, t: Network, n: NodeId)
    requires NetStep(s, act, t) && n in s.nodes
    ensures n in t.nodes && Covers(s.nodes[n].records, t.nodes[n].records)
    ensures s.requests <= t.requests && s.replies <= t.replies
  {
    hide Step, MergeAll, Covers;
    CoverSelf(s.nodes[n].records);
    match act
    case Local(n', e) => if n' == n { LocalCovers(s.nodes[n], e, t.nodes[n]); }
    case Push(_, _) =>
    case Serve(i) =>
      if s.requests[i].receiver == n { MergeCovers(s.nodes[n].records, s.requests[i].lists, t.nodes[n].records); }
    case Absorb(i) =>
      if s.replies[i].receiver == n { MergeCovers(s.nodes[n].records, s.replies[i].lists, t.nodes[n].records); }
  }

  /** No node's candidate set ever shrinks, and sent messages never change. */
  lemma {:induction false} CandidatesNeverShrink(s: seq<Network>, acts: seq<Action>, i: nat, j: nat, n: NodeId)
    requires NetRun(s, acts) && i <= j <= |acts| && n in s[i].nodes
    ensures n in s[j].nodes && Covers(s[i].nodes[n].records, s[j].nodes[n].records)
    ensures s[i].requests <= s[j].requests
    decreases j
  {
    hide NetStep, Covers;
    if i == j {
      CoverSelf(s[i].nodes[n].records);
    } else {
      CandidatesNeverShrink(s, acts, i, j - 1, n);
      NetStepCovers(s[j - 1], acts[j - 1], s[j], n);
      CoversTransitive(s[i].nodes[n].records, s[j - 1].nodes[n].records, s[j].nodes[n].records);
    }
  }

  lemma PushedIsMerged(m: map<Domain, Record>, b: map<Domain, Record>, b': map<Domain, Record>)
    requires MergeAll(b, RequestOf(m), b')
    ensures Covers(m, b')
  {
    hide IsMerge, Elements;
    MergeCovers(b, RequestOf(m), b');
    forall d ensures GrowsTo(Get(m, d), Get(b', d)) {
      if d !in RequestOf(m) {
        ElementsEmpty(Get(m, d).v4);
        ElementsEmpty(Get(m, d).v6);
      }
    }
  }

  /** One hop: request k was pushed at step `push` and served at the later step `serve`. */
  datatype Hop = Hop(push: nat, serve: nat)

  ghost predicate IsHop(s: seq<Network>, acts: seq<Action>, h: Hop)
    requires |s| == |acts| + 1
  {
    && h.push < h.serve < |acts|
    && acts[h.push].Push?
    && acts[h.serve] == Serve(|s[h.push].requests|)
  }

  /** Hops in time order, each pushed by the node that served the one before. */
  ghost predicate IsChain(s: seq<Network>, acts: seq<Action>, hops: seq<Hop>)
    requires |s| == |acts| + 1
  {
    && (forall k :: 0 <= k < |hops| ==> IsHop(s, acts, hops[k]))
    && (forall k :: 0 <= k < |hops| - 1 ==>
         hops[k].serve < hops[k + 1].push && acts[hops[k].push].receiver == acts[hops[k + 1].push].sender)
  }

  lemma HopCarries(s: seq<Network>, acts: seq<Action>, h: Hop)
    requires NetRun(s, acts) && IsHop(s, acts, h)
    ensures var a, b := acts[h.push].sender, acts[h.push].receiver;
      && a in s[h.push].nodes && b in s[h.serve + 1].nodes
      && Covers(s[h.push].nodes[a].records, s[h.serve + 1].nodes[b].records)
  {
    hide Covers, MergeAll, Step;
    var k := |s[h.push].requests|;
    var a, b := acts[h.push].sender, acts[h.push].receiver;
    assert NetStep(s[h.push], acts[h.push], s[h.push + 1]);
    CandidatesNeverShrink(s, acts, h.push + 1, h.serve, a);
    assert s[h.serve].requests[k] == s[h.push + 1].requests[k];
    assert NetStep(s[h.serve], acts[h.serve], s[h.serve + 1]);
    PushedIsMerged(s[h.push].nodes[a].records, s[h.serve].nodes[b].records, s[h.serve + 1].nodes[b].records);
  }

  /** A time-respecting chain of served pushes carries all of the first node's candidates to the last, replies or not. */
  lemma {:induction false} ChainCarries(s: seq<Network>, acts: seq<Action>, hops: seq<Hop>)
    requires NetRun(s, acts) && hops != [] && IsChain(s, acts, hops)
    ensures var first, last := hops[0], hops[|hops| - 1];
      var a, b := acts[first.push].sender, acts[last.push].receiver;
      && a in s[first.push].nodes && b in s[last.serve + 1].nodes
      && Covers(s[first.push].nodes[a].records, s[last.serve + 1].nodes[b].records)
  {
    hide Covers, NetStep;
    var n := |hops| - 1;
    var last := hops[n];
    HopCarries(s, acts, last);
    if n > 0 {
      var before := hops[..n];
      assert before[n - 1] == hops[n - 1];
      ChainCarries(s, acts, before);
      var b := acts[last.push].sender;
      CandidatesNeverShrink(s, acts, hops[n - 1].serve + 1, last.push, b);
      var a := acts[hops[0].push].sender;
      var start := s[hops[0].push].nodes[a].records;
      CoversTransitive(start, s[hops[n - 1].serve + 1].nodes[b].records, s[last.push].nodes[b].records);
      CoversTransitive(start, s[last.push].nodes[b].records, s[last.serve + 1].nodes[acts[last.push].receiver].records);
    }
  }

  /** A push, its serving and the arrival of its reply, nothing in between, are one complete exchange. */
  lemma PushServeAbsorbCompletes(s: Network, s1: Network, s2: Network, s3: Network, a: NodeId, b: NodeId)
    requires NetStep(s, Push(a, b), s1)
    requires NetStep(s1, Serve(|s.requests|), s2)
    requires NetStep(s2, Absorb(|s.replies|), s3)
    ensures a in s.nodes && b in s.nodes && a in s3.nodes && b in s3.nodes
    ensures Completes(s.nodes[a].records, s.nodes[b].records, s3.nodes[a].records, s3.nodes[b].records)
  {
    hide MergeAll, RequestOf, ReplyOf, Step;
  }
}
