/** How each NextIP call is answered, from the calls before it alone: over every run of a new pool. */
module NextHistory {
  import opened Lists
  import opened Records
  import opened PoolSpec
  import opened Selection
  import opened Reservations

  /** A NextIP call for d that was not served from the queue. */
  predicate Unserved(e: Event, d: Domain) {
    Asks(e, d) && !e.via.FromReserve?
  }

  /** The latest such call before event i, or -1. */
  function LatestUnserved(es: seq<Event>, d: Domain, i: nat): (j: int)
    requires i <= |es|
    ensures -1 <= j < i
    ensures j >= 0 ==> Unserved(es[j], d)
    ensures forall k :: j < k < i ==> !Unserved(es[k], d)
  {
    if i == 0 then -1 else if Unserved(es[i - 1], d) then i - 1 else LatestUnserved(es, d, i - 1)
  }

  lemma LastRequestStep(p: Pool, e: Event, q: Pool, d: Domain)
    requires Step(p, e, q)
    ensures if Unserved(e, d) then d in q.lastRequest && q.lastRequest[d] == e.rq.now
            else (d in q.lastRequest <==> d in p.lastRequest) &&
                 (d in p.lastRequest ==> q.lastRequest[d] == p.lastRequest[d])
  {
    hide BatchStep, SingleStep, MergeAll, Live, Saved, Reported, Timed;
  }

  /** A domain's request time is recorded exactly if some call was not served from the queue, and is the latest such call's. */
  lemma {:induction false} LastRequestExactly(s: seq<Pool>, es: seq<Event>, d: Domain, i: nat)
    requires Run(s, es) && s[0].lastRequest == map[] && i <= |es|
    ensures var j := LatestUnserved(es, d, i);
      && (d in s[i].lastRequest <==> j >= 0)
      && (j >= 0 ==> s[i].lastRequest[d] == es[j].rq.now)
  {
    hide Step, Unserved;
    if i > 0 {
      LastRequestExactly(s, es, d, i - 1);
      LastRequestStep(s[i - 1], es[i - 1], s[i], d);
    }
  }

  /** What is left of the batch that call e cut, if it cut one, once `spent` of it were handed out. */
  function Rest(e: Event, spent: nat): seq<Reserved>
    requires e.Next?
  {
    if e.via.CutBatch? && spent <= |e.via.batch| then Stamp(e.via.batch, e.rq.now)[spent..] else []
  }

  /** The queue of d is what is left of the latest call not served from it: of its batch, or nothing. */
  ghost predicate QueueIsRest(s: seq<Pool>, es: seq<Event>, d: Domain, i: nat)
    requires |s| == |es| + 1 && i <= |es|
  {
    var j := LatestUnserved(es, d, i);
    if j < 0 then Queue(s[i].reserved, d) == []
    else
      && Queue(s[i].reserved, d) == Rest(es[j], Handouts(es, d, j, i))
      && (es[j].via.CutBatch? ==> Handouts(es, d, j, i) <= |es[j].via.batch|)
  }

  lemma RestLive(e: Event, spent: nat, now: int)
    requires e.Next?
    ensures Live(Rest(e, spent), now) == if now - e.rq.now < RESERVED_TTL then Rest(e, spent) else []
  {
    LiveAllOrNone(Rest(e, spent), e.rq.now, now);
  }

  lemma RestShrinks(e: Event, spent: nat)
    requires e.Next? && Rest(e, spent) != []
    ensures e.via.CutBatch? && spent < |e.via.batch| && Rest(e, spent + 1) == Rest(e, spent)[1..]
  {
    TailOfTail(Stamp(e.via.batch, e.rq.now), spent);
  }

  lemma RestStarts(e: Event)
    requires e.Next?
    ensures Rest(e, 0) == if e.via.CutBatch? then Stamp(e.via.batch, e.rq.now) else []
  {
    if e.via.CutBatch? {
      var whole := Stamp(e.via.batch, e.rq.now);
      assert whole[0..] == whole;
    }
  }

  lemma HistoryStep(es: seq<Event>, d: Domain, i: nat)
    requires i < |es|
    ensures LatestUnserved(es, d, i + 1) == if Unserved(es[i], d) then i else LatestUnserved(es, d, i)
    ensures Handouts(es, d, i + 1, i + 1) == 0
    ensures Unserved(es[i], d) ==> Handouts(es, d, i, i + 1) == 0
    ensures var j := LatestUnserved(es, d, i);
      j >= 0 && !Unserved(es[i], d) ==>
        Handouts(es, d, j, i + 1) == Handouts(es, d, j, i) + if Asks(es[i], d) then 1 else 0
  {
  }

  lemma {:induction false} QueueExactly(s: seq<Pool>, es: seq<Event>, d: Domain, i: nat)
    requires Run(s, es) && s[0].reserved == map[] && i <= |es|
    ensures QueueIsRest(s, es, d, i)
  {
    hide Step, QueueIsRest;
    if i == 0 {
      QueueAtStart(s, es, d);
    } else {
      QueueExactly(s, es, d, i - 1);
      if Asks(es[i - 1], d) {
        QueueAfterAsk(s, es, d, i - 1);
      } else {
        QueueAfterOther(s, es, d, i - 1);
      }
    }
  }

  lemma QueueAtStart(s: seq<Pool>, es: seq<Event>, d: Domain)
    requires |s| == |es| + 1 && s[0].reserved == map[]
    ensures QueueIsRest(s, es, d, 0)
  {
  }

  lemma QueueAfterOther(s: seq<Pool>, es: seq<Event>, d: Domain, i: nat)
    requires |s| == |es| + 1 && i < |es| && QueueIsRest(s, es, d, i)
    requires !Asks(es[i], d) && Step(s[i], es[i], s[i + 1])
    ensures QueueIsRest(s, es, d, i + 1)
  {
    OtherQueuesStay(s[i], es[i], s[i + 1], d);
    HistoryStep(es, d, i);
    hide Step, LatestUnserved, Handouts, Rest, Queue;
  }

  lemma QueueAfterAsk(s: seq<Pool>, es: seq<Event>, d: Domain, i: nat)
    requires |s| == |es| + 1 && i < |es| && QueueIsRest(s, es, d, i)
    requires Asks(es[i], d) && Step(s[i], es[i], s[i + 1])
    ensures QueueIsRest(s, es, d, i + 1)
  {
    var e, j := es[i], LatestUnserved(es, d, i);
    NextQueue(s[i], e.rq, s[i + 1], e.pick, e.via);
    HistoryStep(es, d, i);
    LiveOfNone(e.rq.now);
    hide Step, LatestUnserved, Handouts, Rest, Queue, Live, Stamp;
    if Unserved(e, d) {
      RestStarts(e);
    } else {
      var spent := if j >= 0 then Handouts(es, d, j, i) else 0;
      if j >= 0 {
        RestLive(es[j], spent, e.rq.now);
        RestShrinks(es[j], spent);
      }
    }
  }

  lemma LiveOfNone(now: int)
    ensures Live([], now) == []
  {
  }

  /**
   * The latest call for d not served from the queue cut a batch under 500 ms ago, of which fewer than eight addresses
   * were handed out since.
   */
  predicate BatchOpen(es: seq<Event>, d: Domain, i: nat, now: int)
    requires i <= |es|
  {
    var j := LatestUnserved(es, d, i);
    j >= 0 && es[j].via.CutBatch? && Handouts(es, d, j, i) < 8 && now - es[j].rq.now < 500_000_000
  }

  /** That call is the domain's first, or was under 200 ms ago. */
  predicate Concurrent(es: seq<Event>, d: Domain, i: nat, now: int)
    requires i <= |es|
  {
    var j := LatestUnserved(es, d, i);
    j < 0 || now - es[j].rq.now < 200_000_000
  }

  lemma LiveExactly(s: seq<Pool>, es: seq<Event>, d: Domain, i: nat, now: int)
    requires Run(s, es) && s[0].reserved == map[] && i <= |es|
    ensures Live(Queue(s[i].reserved, d), now) != [] <==> BatchOpen(es, d, i, now)
  {
    QueueExactly(s, es, d, i);
    hide Step, Live, Queue;
    var j := LatestUnserved(es, d, i);
    if j >= 0 {
      RestLive(es[j], Handouts(es, d, j, i), now);
      if es[j].via.CutBatch? {
        BatchIsEight(s, es, d, j);
      }
    } else {
      LiveOfNone(now);
    }
  }

  lemma BatchIsEight(s: seq<Pool>, es: seq<Event>, d: Domain, j: nat)
    requires Run(s, es) && j < |es| && Cuts(es[j], d)
    ensures |es[j].via.batch| == 8
  {
    hide BatchStep;
    assert Step(s[j], es[j], s[j + 1]) && es[j].via.batch != [];
    CutPickable(s, es, j, 0);
  }

  /**
   * In every run of a new pool: a call is served from the queue exactly while a batch is open; otherwise it cuts a
   * batch exactly when the domain is asked for the first time or again within 200 ms, and there is something to pick.
   */
  lemma NextByHistory(s: seq<Pool>, es: seq<Event>, d: Domain, i: nat)
    requires Run(s, es) && s[0].reserved == map[] && s[0].lastRequest == map[]
    requires i < |es| && Asks(es[i], d)
    ensures var rq := es[i].rq;
      && (es[i].via.FromReserve? <==> BatchOpen(es, d, i, rq.now))
      && (es[i].via.CutBatch? <==>
           !BatchOpen(es, d, i, rq.now) && Concurrent(es, d, i, rq.now) && CanPick(Resolved(s[i].records, d, rq.ans1), rq.env1))
  {
    var rq := es[i].rq;
    LiveExactly(s, es, d, i, rq.now);
    LastRequestExactly(s, es, d, i);
    assert NextStep(s[i], rq, s[i + 1], es[i].pick, es[i].via);
    NextVia(s[i], rq, s[i + 1], es[i].pick, es[i].via);
  }

  lemma NextVia(p: Pool, rq: Request, q: Pool, out: Option<Pick>, via: Via)
    requires NextStep(p, rq, q, out, via)
    ensures via.FromReserve? <==> Live(Queue(p.reserved, rq.domain), rq.now) != []
    ensures via.CutBatch? <==>
      && Live(Queue(p.reserved, rq.domain), rq.now) == []
      && InWindow(p, rq.domain, rq.now)
      && CanPick(Resolved(p.records, rq.domain, rq.ans1), rq.env1)
  {
    hide BatchStep, SingleStep, Live, Queue, Resolved, CanPick;
    match via
    case CutBatch(batch) =>
      BatchAnswersExactly(p.records, rq.domain, BATCH_SIZE, rq.env1, rq.ans1, q.records, Some(batch));
    case FailedBatch(mid) =>
      BatchAnswersExactly(p.records, rq.domain, BATCH_SIZE, rq.env1, rq.ans1, mid, None);
    case _ =>
  }

  /** The record a call not answered by a batch picks from: what its batch attempt left, or else a resolution of its own. */
  function Fallback(p: Pool, rq: Request): Record {
    var d := rq.domain;
    if InWindow(p, d, rq.now) && (d in p.records || rq.ans1.v4 != [] || rq.ans1.v6 != [])
    then Resolved(p.records, d, rq.ans1) else Resolved(p.records, d, rq.ans2)
  }

  /** A call is answered exactly when the queue, the batch or the single pick it falls back to has an address. */
  lemma NextAnswersExactly(p: Pool, rq: Request, q: Pool, out: Option<Pick>, via: Via)
    requires NextStep(p, rq, q, out, via)
    ensures out.Some? <==>
      || Live(Queue(p.reserved, rq.domain), rq.now) != []
      || (InWindow(p, rq.domain, rq.now) && CanPick(Resolved(p.records, rq.domain, rq.ans1), rq.env1))
      || CanPick(Fallback(p, rq), rq.env2)
  {
    NextVia(p, rq, q, out, via);
    var d := rq.domain;
    match via
    case FromReserve =>
    case CutBatch(batch) =>
    case FailedBatch(mid) =>
      FailedLeaves(p.records, d, rq.env1, rq.ans1, mid, rq.env2, rq.ans2);
      hide BatchStep, SingleStep, CanPick, Resolved;
      SingleAnswersExactly(mid, d, rq.env2, rq.ans2, q.records, out);
    case Lone =>
      hide BatchStep, SingleStep, CanPick, Resolved;
      SingleAnswersExactly(p.records, d, rq.env2, rq.ans2, q.records, out);
  }

  lemma FailedLeaves(m: map<Domain, Record>, d: Domain, env: Env, ans: Answer, mid: map<Domain, Record>,
                     env2: Env, ans2: Answer)
    requires BatchStep(m, d, BATCH_SIZE, env, ans, mid, None)
    ensures CanPick(Resolved(mid, d, ans2), env2) <==>
      CanPick(if d in m || ans.v4 != [] || ans.v6 != [] then Resolved(m, d, ans) else Resolved(m, d, ans2), env2)
  {
    if d in m || !ans.Fails() {
      var base := Resolved(m, d, ans);
      var folded := mid[d].(next4 := base.next4);
      FoldCanPick(base, folded, env2);
    }
  }
}
