/** The short-lived reservation queue: where every address NextIP returns comes from, over every run. */
module Reservations {
  import opened Lists
  import opened Records
  import opened Rotation
  import opened PoolSpec
  import opened Filing
  import opened Refresh
  import opened Allocation

  predicate Asks(e: Event, d: Domain) {
    e.Next? && e.rq.domain == d
  }

  predicate Cuts(e: Event, d: Domain) {
    e.Next? && e.rq.domain == d && e.via.CutBatch?
  }

  predicate TakesReserved(e: Event, d: Domain) {
    e.Next? && e.rq.domain == d && e.via.FromReserve?
  }

  /** The latest event before i that cut a batch for d, or -1. */
  function LastCut(es: seq<Event>, d: Domain, i: nat): (j: int)
    requires i <= |es|
    ensures -1 <= j < i
    ensures j >= 0 ==> Cuts(es[j], d)
    ensures forall k :: j < k < i ==> !Cuts(es[k], d)
  {
    if i == 0 then -1 else if Cuts(es[i - 1], d) then i - 1 else LastCut(es, d, i - 1)
  }

  /** How many reserved addresses of d the events from j up to i handed out. */
  function Handouts(es: seq<Event>, d: Domain, j: nat, i: nat): nat
    requires j <= i <= |es|
  {
    if i == j then 0 else Handouts(es, d, j, i - 1) + if TakesReserved(es[i - 1], d) then 1 else 0
  }

  lemma {:induction false} LiveAllOrNone(rs: seq<Reserved>, at: int, now: int)
    requires forall i :: 0 <= i < |rs| ==> rs[i].at == at
    ensures Live(rs, now) == if now - at < RESERVED_TTL then rs else []
  {
    if rs != [] {
      var n := |rs| - 1;
      LiveAllOrNone(rs[..n], at, now);
      assert rs == rs[..n] + [rs[n]];
    }
  }

  /** queue is what is left of the batch cut by e once `spent` entries are gone, all under that batch's time. */
  predicate IsTail(queue: seq<Reserved>, e: Event, spent: nat)
    requires e.Next? && e.via.CutBatch?
  {
    spent <= |e.via.batch| && queue == Stamp(e.via.batch, e.rq.now)[spent..]
  }

  lemma TailShrinks(queue: seq<Reserved>, e: Event, spent: nat)
    requires e.Next? && e.via.CutBatch? && IsTail(queue, e, spent) && queue != []
    ensures IsTail(queue[1..], e, spent + 1)
  {
    TailOfTail(Stamp(e.via.batch, e.rq.now), spent);
  }

  lemma TailStarts(e: Event)
    requires e.Next? && e.via.CutBatch?
    ensures IsTail(Stamp(e.via.batch, e.rq.now), e, 0)
  {
    var whole := Stamp(e.via.batch, e.rq.now);
    assert whole[0..] == whole;
  }

  /** What is still queued for d is the unspent tail of the last batch cut for d, all under that batch's time. */
  ghost predicate QueueIsTail(s: seq<Pool>, es: seq<Event>, d: Domain, i: nat)
    requires |s| == |es| + 1 && i <= |es|
  {
    var j := LastCut(es, d, i);
    var queue := Queue(s[i].reserved, d);
    queue != [] ==> j >= 0 && IsTail(queue, es[j], Handouts(es, d, j, i))
  }

  /** Expiry keeps the whole queue or none of it. */
  lemma QueueExpiresWhole(s: seq<Pool>, es: seq<Event>, d: Domain, i: nat, now: int)
    requires |s| == |es| + 1 && i <= |es| && QueueIsTail(s, es, d, i)
    ensures var queue, j := Queue(s[i].reserved, d), LastCut(es, d, i);
      Live(queue, now) == if queue != [] && now - es[j].rq.now < RESERVED_TTL then queue else []
  {
    var queue, j := Queue(s[i].reserved, d), LastCut(es, d, i);
    if queue != [] {
      LiveAllOrNone(queue, es[j].rq.now, now);
    }
  }

  lemma OtherQueuesStay(p: Pool, e: Event, q: Pool, d: Domain)
    requires Step(p, e, q) && !(e.Next? && e.rq.domain == d)
    ensures Queue(q.reserved, d) == Queue(p.reserved, d)
  {
  }

  lemma {:induction false} RunKeepsQueue(s: seq<Pool>, es: seq<Event>, d: Domain, i: nat)
    requires Run(s, es) && s[0].reserved == map[] && i <= |es|
    ensures QueueIsTail(s, es, d, i)
  {
    hide Step;
    if i > 0 {
      RunKeepsQueue(s, es, d, i - 1);
      var e := es[i - 1];
      if !(e.Next? && e.rq.domain == d) {
        OtherQueuesStay(s[i - 1], e, s[i], d);
      } else {
        QueueAfterNext(s, es, d, i - 1);
      }
    }
  }

  lemma QueueAfterNext(s: seq<Pool>, es: seq<Event>, d: Domain, i: nat)
    requires |s| == |es| + 1 && i < |es| && QueueIsTail(s, es, d, i)
    requires es[i].Next? && es[i].rq.domain == d && Step(s[i], es[i], s[i + 1])
    ensures QueueIsTail(s, es, d, i + 1)
  {
    var j := LastCut(es, d, i);
    QueueExpiresWhole(s, es, d, i, es[i].rq.now);
    NextQueue(s[i], es[i].rq, s[i + 1], es[i].pick, es[i].via);
    CountsAfter(es, d, i);
    hide Step, LastCut, Handouts, Live, Queue, Stamp, IsTail;
    if es[i].via.CutBatch? {
      TailStarts(es[i]);
    } else if es[i].via.FromReserve? {
      TailShrinks(Queue(s[i].reserved, d), es[j], Handouts(es, d, j, i));
    }
  }

  lemma CountsAfter(es: seq<Event>, d: Domain, i: nat)
    requires i < |es| && Asks(es[i], d)
    ensures LastCut(es, d, i + 1) == if es[i].via.CutBatch? then i else LastCut(es, d, i)
    ensures es[i].via.CutBatch? ==> Handouts(es, d, i, i + 1) == 0
    ensures var j := LastCut(es, d, i);
      j >= 0 && es[i].via.FromReserve? ==> Handouts(es, d, j, i + 1) == Handouts(es, d, j, i) + 1
  {
  }

  /** What one NextIP call leaves queued for its domain. */
  lemma NextQueue(p: Pool, rq: Request, q: Pool, out: Option<Pick>, via: Via)
    requires NextStep(p, rq, q, out, via)
    ensures var queue := Queue(q.reserved, rq.domain);
      match via
      case FromReserve => Live(Queue(p.reserved, rq.domain), rq.now) != [] &&
                          queue == Live(Queue(p.reserved, rq.domain), rq.now)[1..]
      case CutBatch(batch) => queue == Stamp(batch, rq.now)
      case _ => queue == []
  {
    hide BatchStep, SingleStep, Stamp, Live;
  }

  lemma TailOfTail<T>(s: seq<T>, k: nat)
    requires k < |s|
    ensures s[k..][1..] == s[k + 1..]
  {
  }

  /** Picks of a batch come from the candidates as they were when it was cut. */
  lemma BatchPickable(m: map<Domain, Record>, d: Domain, count: int, env: Env, ans: Answer,
                      m': map<Domain, Record>, out: Option<seq<Pick>>, k: nat)
    requires BatchStep(m, d, count, env, ans, m', out) && out.Some? && k < |out.value|
    ensures |out.value| == count && d in m' && Pickable(m'[d], env, out.value[k])
  {
    var base := Resolved(m, d, ans);
    var folded := m'[d].(next4 := base.next4);
    AvailableExact(folded, env);
    assert out.value[k] == At(Available(folded, env), base.next4 + k);
    assert Pickable(folded, env, out.value[k]);
  }

  lemma HandoutFromBatch(s: seq<Pool>, es: seq<Event>, i: nat, d: Domain, j: int)
    requires Run(s, es) && s[0].reserved == map[]
    requires i < |es| && TakesReserved(es[i], d) && j == LastCut(es, d, i)
    ensures j >= 0 && es[i].rq.now - es[j].rq.now < RESERVED_TTL
    ensures Handouts(es, d, j, i) < |es[j].via.batch|
    ensures es[i].pick == Some(es[j].via.batch[Handouts(es, d, j, i)])
  {
    RunKeepsQueue(s, es, d, i);
    ServedFromHead(s[i], es[i].rq, s[i + 1], es[i].pick);
    QueueExpiresWhole(s, es, d, i, es[i].rq.now);
  }

  /**
   * A reserved handout is entry h of the last batch cut for the domain, where h is the number of reserved
   * handouts since then; the batch is under the time-to-live, and the entry was listed, allowed and not
   * blacklisted when the batch was cut.
   */
  lemma ReservedHandout(s: seq<Pool>, es: seq<Event>, i: nat, d: Domain, j: int)
    requires Run(s, es) && s[0].reserved == map[]
    requires i < |es| && TakesReserved(es[i], d) && j == LastCut(es, d, i)
    ensures j >= 0 && es[i].rq.now - es[j].rq.now < 500_000_000
    ensures |es[j].via.batch| == 8
    ensures var h := Handouts(es, d, j, i);
      && h < 8
      && es[i].pick == Some(es[j].via.batch[h])
      && d in s[j + 1].records
      && Pickable(s[j + 1].records[d], es[j].rq.env1, es[j].via.batch[h])
  {
    HandoutFromBatch(s, es, i, d, j);
    CutPickable(s, es, j, Handouts(es, d, j, i));
  }

  lemma CutPickable(s: seq<Pool>, es: seq<Event>, j: nat, h: nat)
    requires Run(s, es) && j < |es| && es[j].Next? && es[j].via.CutBatch? && h < |es[j].via.batch|
    ensures |es[j].via.batch| == BATCH_SIZE && es[j].rq.domain in s[j + 1].records
    ensures Pickable(s[j + 1].records[es[j].rq.domain], es[j].rq.env1, es[j].via.batch[h])
  {
    var rq, batch := es[j].rq, es[j].via.batch;
    assert Step(s[j], es[j], s[j + 1]);
    BatchPickable(s[j].records, rq.domain, BATCH_SIZE, rq.env1, rq.ans1, s[j + 1].records, Some(batch), h);
  }

  /** Serving from the queue: the answer is the queue's first entry, and all of the queue was still live. */
  lemma ServedFromHead(p: Pool, rq: Request, q: Pool, out: Option<Pick>)
    requires NextStep(p, rq, q, out, FromReserve)
    ensures Live(Queue(p.reserved, rq.domain), rq.now) != []
    ensures out == Some(Live(Queue(p.reserved, rq.domain), rq.now)[0].pick)
  {
  }

  /** An address not taken from the queue is fresh: listed, allowed and not blacklisted as the call ends. */
  lemma FreshPick(s: seq<Pool>, es: seq<Event>, i: nat)
    requires Run(s, es) && i < |es|
    requires es[i].Next? && !es[i].via.FromReserve? && es[i].pick.Some?
    ensures var d, p := es[i].rq.domain, es[i].pick.value;
      && d in s[i + 1].records
      && Pickable(s[i + 1].records[d], if es[i].via.CutBatch? then es[i].rq.env1 else es[i].rq.env2, p)
  {
    var p, rq, q := s[i], es[i].rq, s[i + 1];
    assert Step(s[i], es[i], s[i + 1]);
    match es[i].via
    case CutBatch(batch) =>
      BatchPickable(p.records, rq.domain, BATCH_SIZE, rq.env1, rq.ans1, q.records, Some(batch), 0);
    case FailedBatch(mid) => SinglePickable(mid, rq.domain, rq.env2, rq.ans2, q.records, es[i].pick);
    case Lone => SinglePickable(p.records, rq.domain, rq.env2, rq.ans2, q.records, es[i].pick);
  }

  lemma SinglePickable(m: map<Domain, Record>, d: Domain, env: Env, ans: Answer,
                       m': map<Domain, Record>, out: Option<Pick>)
    requires SingleStep(m, d, env, ans, m', out) && out.Some?
    ensures d in m' && Pickable(m'[d], env, out.value)
  {
    var base := Resolved(m, d, ans);
    var folded := m'[d].(next4 := base.next4);
    AvailableExact(folded, env);
    assert Pickable(folded, env, out.value);
  }

  /**
   * The call that cuts a batch returns its first address and leaves it queued: the next call for the domain repeats
   * it, exactly when it comes before the batch expires.
   */
  lemma FirstOfBatchHandedOutTwice(p: Pool, rq: Request, q: Pool, out: Option<Pick>, via: Via,
                                   rq': Request, q': Pool, out': Option<Pick>, via': Via)
    requires NextStep(p, rq, q, out, via) && via.CutBatch?
    requires NextStep(q, rq', q', out', via')
    requires rq'.domain == rq.domain
    ensures via'.FromReserve? <==> rq'.now - rq.now < 500_000_000
    ensures via'.FromReserve? ==> out' == out
  {
    LiveAllOrNone(Queue(q.reserved, rq.domain), rq.now, rq'.now);
  }

  // ---------------------------------------------------------------- when the first address of a batch comes again

  /** A NextIP call for d may cut a batch now: it is the first one, or closely follows another. */
  predicate InWindow(p: Pool, d: Domain, now: int) {
    d !in p.lastRequest || now - p.lastRequest[d] < CONCURRENT_WINDOW
  }

  /** On a known record with candidates a call cuts a batch exactly when nothing live is queued and it is in the window. */
  lemma CutsExactly(p: Pool, rq: Request, q: Pool, out: Option<Pick>, via: Via)
    requires NextStep(p, rq, q, out, via)
    requires rq.domain in p.records && RecordInv(p.records[rq.domain])
    requires Available(p.records[rq.domain], rq.env1) != []
    ensures via.CutBatch? <==> Live(Queue(p.reserved, rq.domain), rq.now) == [] && InWindow(p, rq.domain, rq.now)
  {
    hide RecordInv, Available, BatchStep, SingleStep, Live;
    match via
    case FailedBatch(mid) => BatchOnKnown(p.records, rq.domain, BATCH_SIZE, rq.env1, rq.ans1, mid, None);
    case _ =>
  }

  /** Such a call exists in every state of that kind. */
  lemma CutIsPossible(p: Pool, rq: Request) returns (q: Pool, batch: seq<Pick>)
    requires rq.domain in p.records && RecordInv(p.records[rq.domain])
    requires Available(p.records[rq.domain], rq.env1) != []
    requires Live(Queue(p.reserved, rq.domain), rq.now) == [] && InWindow(p, rq.domain, rq.now)
    ensures batch != [] && NextStep(p, rq, q, Some(batch[0]), CutBatch(batch))
  {
    var d, r := rq.domain, p.records[rq.domain];
    var a := Available(r, rq.env1);
    batch := Cycle(a, r.next4, BATCH_SIZE);
    var r' := r.(next4 := (r.next4 + BATCH_SIZE) % |a|);
    q := Pool(p.records[d := r'],
              (if Queue(p.reserved, d) != [] then p.reserved - {d} else p.reserved)[d := Stamp(batch, rq.now)],
              p.lastRequest[d := rq.now]);
    assert r'.(next4 := r.next4) == r;
    FoldSelf(r);
    hide RecordInv, Available, IsFold, Cycle, Live;
    assert BatchStep(p.records, d, BATCH_SIZE, rq.env1, rq.ans1, q.records, Some(batch));
  }

  /** A call not served from the queue answers with the address the index points at. */
  lemma FreshAnswer(p: Pool, rq: Request, q: Pool, out: Option<Pick>, via: Via, env: Env)
    requires NextStep(p, rq, q, out, via) && rq.env1 == env && rq.env2 == env
    requires rq.domain in p.records && RecordInv(p.records[rq.domain])
    requires Available(p.records[rq.domain], env) != []
    ensures var r := p.records[rq.domain]; var a := Available(r, env);
      if Live(Queue(p.reserved, rq.domain), rq.now) != [] then via.FromReserve?
      else !via.FromReserve? && out == Some(a[r.next4 % |a|])
  {
    hide RecordInv, Available, BatchStep, SingleStep, Live, Cycle;
    var r := p.records[rq.domain];
    var a := Available(r, env);
    match via
    case FromReserve =>
    case CutBatch(batch) =>
      BatchOnKnown(p.records, rq.domain, BATCH_SIZE, env, rq.ans1, q.records, Some(batch));
      CycleHead(a, r.next4, batch);
    case FailedBatch(mid) =>
      BatchOnKnown(p.records, rq.domain, BATCH_SIZE, env, rq.ans1, mid, None);
    case Lone =>
      SingleOnKnown(p.records, rq.domain, env, rq.ans2, q.records, out);
      CycleHead(a, r.next4, [out.value]);
  }

  lemma CycleHead(a: seq<Pick>, start: nat, picks: seq<Pick>)
    requires a != [] && picks != [] && picks == Cycle(a, start, |picks|)
    ensures picks[0] == a[start % |a|]
  {
    assert picks[0] == At(a, start);
  }

  lemma {:induction false} QueueWaits(s: seq<Pool>, es: seq<Event>, d: Domain, j: nat)
    requires Run(s, es) && 1 <= j <= |es|
    requires forall k :: 1 <= k < j ==> !Asks(es[k], d)
    ensures Queue(s[j].reserved, d) == Queue(s[1].reserved, d)
  {
    hide Step, Queue;
    if j > 1 {
      QueueWaits(s, es, d, j - 1);
      OtherQueuesStay(s[j - 1], es[j - 1], s[j], d);
    }
  }

  /** The batch cut by a run's first call is what the domain's next call finds, until it expires. */
  lemma BatchStillQueued(s: seq<Pool>, es: seq<Event>, d: Domain, j: nat)
    requires Run(s, es) && 1 <= j < |es|
    requires Asks(es[0], d) && es[0].via.CutBatch? && Asks(es[j], d)
    requires forall k :: 0 < k < j ==> !Asks(es[k], d)
    ensures var batch, at := es[0].via.batch, es[0].rq.now;
      Live(Queue(s[j].reserved, d), es[j].rq.now) == if es[j].rq.now - at < RESERVED_TTL then Stamp(batch, at) else []
  {
    assert Step(s[0], es[0], s[1]);
    hide NextStep, Live, Queue;
    QueueWaits(s, es, d, j);
    NextQueue(s[0], es[0].rq, s[1], es[0].pick, es[0].via);
    LiveAllOrNone(Stamp(es[0].via.batch, es[0].rq.now), es[0].rq.now, es[j].rq.now);
  }

  lemma TurnsWhole(x: nat, k: nat, n: nat)
    requires n > 0
    ensures (x + k) % n == x % n <==> k % n == 0
  {
    var y := x % n;
    ModShift(x, k, n);
    ModShift(k, y, n);
    var r := k % n;
    assert (r + y) % n == (x + k) % n;
    if r + y < n {
      DivModUnique(r + y, 0, r + y, n);
    } else {
      DivModUnique(r + y, 1, r + y - n, n);
    }
  }

  /** The ring holds the same address `total` steps after position start as at it. */
  predicate SameAhead(a: seq<Pick>, start: nat, total: nat)
    requires a != []
  {
    a[(start + total) % |a|].ip == a[start % |a|].ip
  }

  lemma SameAheadExactly(r: Record, env: Env, a: seq<Pick>, total: nat)
    requires RecordInv(r) && a == Available(r, env) != [] && FiledOnce(r, env)
    ensures SameAhead(a, r.next4, total) <==> total % |a| == 0
  {
    hide Available, RecordInv, FiledOnce, Ips;
    InvNoDup(r);
    FiledOnceExactly(r, env);
    TurnsWhole(r.next4, total, |a|);
    OneIpOnePlace(a, (r.next4 + total) % |a|, r.next4 % |a|);
  }

  /**
   * A run that starts with a call cutting a batch for d and ends with the domain's next NextIP call, anything else
   * in between, candidates unchanged: the last call answers the same address as the first exactly when it comes
   * before the batch expires, or when the ring holds that address where the allocations in between, the batch
   * included, lead: after whole turns, and only then if no address is filed in both lists.
   */
  lemma BatchHeadRepeatsExactly(s: seq<Pool>, es: seq<Event>, d: Domain, env: Env, a: seq<Pick>, j: nat)
    requires SteadyRun(s, es, d, env) && |es| == j + 1 && j > 0
    requires d in s[0].records && RecordInv(s[0].records[d])
    requires a == Available(s[0].records[d], env) != []
    requires Asks(es[0], d) && es[0].via.CutBatch? && Asks(es[j], d)
    requires forall k :: 0 < k < j ==> !Asks(es[k], d)
    ensures es[0].pick.Some? && es[j].pick.Some?
    ensures var r, total := s[0].records[d], |AllAllocated(es[..j], d)|;
      && (es[j].pick.value.ip == es[0].pick.value.ip <==>
           es[j].rq.now - es[0].rq.now < 500_000_000 || SameAhead(a, r.next4, total))
      && (FiledOnce(r, env) ==> (SameAhead(a, r.next4, total) <==> total % |a| == 0))
  {
    hide Step, Steady, RecordInv, Available, Cycle, Live, NoDup, AllAllocated, Walk, FiledOnce, Ips, Stamp, Queue;
    StepAt(s, es, d, env, 0);
    StepAt(s, es, d, env, j);
    BatchStillQueued(s, es, d, j);
    hide Run;
    if FiledOnce(s[0].records[d], env) { SameAheadExactly(s[0].records[d], env, a, |AllAllocated(es[..j], d)|); }
    AllocationIsOneWalk(s, es, d, env, a, j);
    SameAvailable(s[0].records[d], s[j].records[d], env);
    FreshAnswer(s[0], es[0].rq, s[1], es[0].pick, es[0].via, env);
    FreshAnswer(s[j], es[j].rq, s[j + 1], es[j].pick, es[j].via, env);
    var batch, at := es[0].via.batch, es[0].rq.now;
    CutHead(s[0], es[0].rq, s[1], es[0].pick, batch);
    var n0, nj, total := s[0].records[d].next4, s[j].records[d].next4, |AllAllocated(es[..j], d)|;
    if es[j].rq.now - at < RESERVED_TTL {
      ServedFromHead(s[j], es[j].rq, s[j + 1], es[j].pick);
    } else {
      WalkEnd(a, n0, AllAllocated(es[..j], d), nj);
    }
  }

  /** With no other allocation for d in between: before expiry, or when the ring holds the address a batch further on. */
  lemma BatchHeadRepeatsAlone(s: seq<Pool>, es: seq<Event>, d: Domain, env: Env, a: seq<Pick>, j: nat)
    requires SteadyRun(s, es, d, env) && |es| == j + 1 && j > 0
    requires d in s[0].records && RecordInv(s[0].records[d])
    requires a == Available(s[0].records[d], env) != []
    requires Asks(es[0], d) && es[0].via.CutBatch? && Asks(es[j], d)
    requires forall k :: 0 < k < j ==> !Asks(es[k], d) && Allocated(es[k], d) == []
    ensures es[0].pick.Some? && es[j].pick.Some?
    ensures var r := s[0].records[d];
      && (es[j].pick.value.ip == es[0].pick.value.ip <==>
           es[j].rq.now - es[0].rq.now < 500_000_000 || SameAhead(a, r.next4, 8))
      && (FiledOnce(r, env) ==> (SameAhead(a, r.next4, 8) <==> 8 % |a| == 0))
  {
    BatchHeadRepeatsExactly(s, es, d, env, a, j);
    hide Step, Steady, RecordInv, Available;
    StepAt(s, es, d, env, 0);
    BatchPickable(s[0].records, d, BATCH_SIZE, env, es[0].rq.ans1, s[1].records, Some(es[0].via.batch), 0);
    NoneSince(es, d, j);
  }

  lemma {:induction false} NoneSince(es: seq<Event>, d: Domain, j: nat)
    requires 1 <= j <= |es| && (forall k :: 0 < k < j ==> Allocated(es[k], d) == [])
    ensures AllAllocated(es[..j], d) == Allocated(es[0], d)
  {
    hide Allocated;
    if j > 1 {
      NoneSince(es, d, j - 1);
      assert es[..j][..j - 1] == es[..j - 1];
    } else {
      assert es[..1][..0] == [];
      assert AllAllocated(es[..1][..0], d) == [];
    }
  }

  lemma StepAt(s: seq<Pool>, es: seq<Event>, d: Domain, env: Env, j: nat)
    requires SteadyRun(s, es, d, env) && j < |es| && Asks(es[j], d)
    ensures NextStep(s[j], es[j].rq, s[j + 1], es[j].pick, es[j].via)
    ensures es[j].rq.env1 == env && es[j].rq.env2 == env
  {
    hide NextStep;
    assert Step(s[j], es[j], s[j + 1]) && Steady(s[j], es[j], s[j + 1], d, env);
  }

  lemma WalkEnd(a: seq<Pick>, start: nat, all: seq<Pick>, cur: nat)
    requires a != [] && Walk(a, start, all, cur)
    ensures cur % |a| == (start + |all|) % |a|
  {
  }

  lemma CutHead(p: Pool, rq: Request, q: Pool, out: Option<Pick>, batch: seq<Pick>)
    requires NextStep(p, rq, q, out, CutBatch(batch))
    ensures batch != [] && out == Some(batch[0])
    ensures Stamp(batch, rq.now)[0] == Reserved(batch[0], rq.now)
  {
    hide BatchStep;
  }
}
