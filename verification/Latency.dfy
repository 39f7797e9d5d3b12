/** The latency averages as a function of the samples reported: over every run of a new pool. */
module Latency {
  import opened Lists
  import opened Records
  import opened PoolSpec

  /** The sample an event brings for address ip of d: any positive one with both names given. */
  predicate IsSample(e: Event, d: Domain) {
    e.Latency? && e.domain == d && d != "" && e.ip.text != "" && e.ms > 0
  }

  /** Which of a domain's samples count: those of one address, or of one family. */
  datatype Share = Of(ip: Ip) | Family(six: bool)

  predicate Counts(w: Share, ip: Ip) {
    match w
    case Of(x) => x == ip
    case Family(six) => six == ip.V6?
  }

  /** The samples among the first i events that are for d and count for w, in order. */
  function Samples(es: seq<Event>, d: Domain, w: Share, i: nat): seq<int>
    requires i <= |es|
  {
    if i == 0 then [] else
      var xs, e := Samples(es, d, w, i - 1), es[i - 1];
      if IsSample(e, d) && Counts(w, e.ip) then xs + [e.ms] else xs
  }

  /** The first sample as it is, then three tenths of each new sample and seven tenths of the average so far. */
  function Averaged(xs: seq<int>): real {
    if xs == [] then 0.0 else
      var n := |xs| - 1;
      if n == 0 then xs[0] as real else 0.3 * xs[n] as real + 0.7 * Averaged(xs[..n])
  }

  lemma {:induction false} AveragedPositive(xs: seq<int>)
    requires forall i :: 0 <= i < |xs| ==> xs[i] > 0
    ensures xs != [] ==> Averaged(xs) > 0.0
  {
    if |xs| > 1 { AveragedPositive(xs[..|xs| - 1]); }
  }

  lemma {:induction false} SamplesPositive(es: seq<Event>, d: Domain, w: Share, i: nat)
    requires i <= |es|
    ensures forall k :: 0 <= k < |Samples(es, d, w, i)| ==> Samples(es, d, w, i)[k] > 0
  {
    if i > 0 { SamplesPositive(es, d, w, i - 1); }
  }

  lemma AveragedNext(xs: seq<int>, x: int)
    requires forall i :: 0 <= i < |xs| ==> xs[i] > 0
    ensures Averaged(xs + [x]) == Ewma(Averaged(xs), x as real)
  {
    AveragedPositive(xs);
    assert (xs + [x])[..|xs|] == xs;
  }

  ghost predicate SameLatencies(a: Record, b: Record) {
    a.ewma4 == b.ewma4 && a.ewma6 == b.ewma6 && a.ipLatency == b.ipLatency
  }

  lemma SelectionKeepsLatencies(m: map<Domain, Record>, d: Domain, count: int, env: Env, ans: Answer,
                                m': map<Domain, Record>, x: Domain)
    requires (exists out :: BatchStep(m, d, count, env, ans, m', out)) || (exists out :: SingleStep(m, d, env, ans, m', out))
    ensures SameLatencies(Get(m, x), Get(m', x))
  {
    hide Available, Extends, Combine, BoundIndex;
  }

  lemma NextKeepsLatencies(p: Pool, rq: Request, q: Pool, out: Option<Pick>, via: Via, x: Domain)
    requires NextStep(p, rq, q, out, via)
    ensures SameLatencies(Get(p.records, x), Get(q.records, x))
  {
    hide BatchStep, SingleStep, Live, Queue;
    match via
    case FromReserve =>
    case CutBatch(batch) =>
      SelectionKeepsLatencies(p.records, rq.domain, BATCH_SIZE, rq.env1, rq.ans1, q.records, x);
    case FailedBatch(mid) =>
      SelectionKeepsLatencies(p.records, rq.domain, BATCH_SIZE, rq.env1, rq.ans1, mid, x);
      SelectionKeepsLatencies(mid, rq.domain, 1, rq.env2, rq.ans2, q.records, x);
    case Lone =>
      SelectionKeepsLatencies(p.records, rq.domain, 1, rq.env2, rq.ans2, q.records, x);
  }

  lemma OtherStepsKeepLatencies(p: Pool, e: Event, q: Pool, x: Domain)
    requires Step(p, e, q) && !IsSample(e, x)
    ensures SameLatencies(Get(p.records, x), Get(q.records, x))
  {
    hide BatchStep, SingleStep, NextStep, ListsThen, Saved, Reported, Timed;
    match e
    case Save(d, found) => SaveFrame(Get(p.records, d), found);
    case Report(d, ip, status) => ReportFrame(Get(p.records, d), ip, status);
    case Batch(d, count, env, ans, picks) => SelectionKeepsLatencies(p.records, d, count, env, ans, q.records, x);
    case Next(rq, pick, via) => NextKeepsLatencies(p, rq, q, pick, via, x);
    case Merge(peers) =>
      if x in peers { assert IsMerge(Get(p.records, x), peers[x], q.records[x]); }
    case Latency(d, ip, ms) =>
  }

  /** An address's average is the weighted average of the samples for it, and absent before the first. */
  lemma {:induction false} AddressAverageByHistory(s: seq<Pool>, es: seq<Event>, d: Domain, ip: Ip, i: nat)
    requires Run(s, es) && s[0].records == map[] && i <= |es|
    ensures var xs, r := Samples(es, d, Of(ip), i), Get(s[i].records, d);
      && (ip in r.ipLatency <==> xs != [])
      && (xs != [] ==> r.ipLatency[ip] == Averaged(xs))
  {
    hide Step, Averaged;
    if i > 0 {
      AddressAverageByHistory(s, es, d, ip, i - 1);
      var e, xs := es[i - 1], Samples(es, d, Of(ip), i - 1);
      if IsSample(e, d) {
        SampleStep(s[i - 1], e, s[i], d);
        SamplesPositive(es, d, Of(ip), i - 1);
        AveragedNext(xs, e.ms);
        EmptyAverage();
      } else {
        OtherStepsKeepLatencies(s[i - 1], e, s[i], d);
      }
    }
  }

  lemma EmptyAverage()
    ensures Averaged([]) == 0.0
  {
  }

  /** A sample moves its address's and its family's average; both stay where there was no sample for them. */
  lemma SampleStep(p: Pool, e: Event, q: Pool, d: Domain)
    requires Step(p, e, q) && IsSample(e, d)
    ensures var r, t, x := Get(p.records, d), Get(q.records, d), e.ms as real;
      && t.ipLatency == r.ipLatency[e.ip := Ewma(if e.ip in r.ipLatency then r.ipLatency[e.ip] else 0.0, x)]
      && t.ewma4 == (if e.ip.V6? then r.ewma4 else Ewma(r.ewma4, x))
      && t.ewma6 == (if e.ip.V6? then Ewma(r.ewma6, x) else r.ewma6)
  {
    hide Ewma;
  }

  /** A family's average is the weighted average of the samples for its addresses; unparsable ones count as IPv4. */
  lemma {:induction false} FamilyAverageByHistory(s: seq<Pool>, es: seq<Event>, d: Domain, i: nat)
    requires Run(s, es) && s[0].records == map[] && i <= |es|
    ensures Get(s[i].records, d).ewma4 == Averaged(Samples(es, d, Family(false), i))
    ensures Get(s[i].records, d).ewma6 == Averaged(Samples(es, d, Family(true), i))
  {
    hide Step, Averaged;
    EmptyAverage();
    if i > 0 {
      FamilyAverageByHistory(s, es, d, i - 1);
      var e, xs, ys := es[i - 1], Samples(es, d, Family(false), i - 1), Samples(es, d, Family(true), i - 1);
      if IsSample(e, d) {
        SampleStep(s[i - 1], e, s[i], d);
        SamplesPositive(es, d, Family(false), i - 1);
        SamplesPositive(es, d, Family(true), i - 1);
        AveragedNext(xs, e.ms);
        AveragedNext(ys, e.ms);
      } else {
        OtherStepsKeepLatencies(s[i - 1], e, s[i], d);
      }
    }
  }

  function Power7(k: nat): real {
    if k == 0 then 1.0 else 0.7 * Power7(k - 1)
  }

  function Repeated(x: int, k: nat): seq<int> { seq(k, _ => x) }

  /** k equal samples bring an average to within 0.7^k of the distance it had to them. */
  lemma {:induction false} EqualSamplesConverge(xs: seq<int>, x: int, k: nat)
    requires xs != []
    ensures x as real - Averaged(xs + Repeated(x, k)) == Power7(k) * (x as real - Averaged(xs))
  {
    hide Averaged;
    if k == 0 {
      assert xs + Repeated(x, 0) == xs;
    } else {
      EqualSamplesConverge(xs, x, k - 1);
      var ys := xs + Repeated(x, k - 1);
      assert xs + Repeated(x, k) == ys + [x];
      AnotherSample(ys, x);
      Regroup(Power7(k - 1), x as real - Averaged(xs));
    }
  }

  lemma AnotherSample(ys: seq<int>, x: int)
    requires ys != []
    ensures x as real - Averaged(ys + [x]) == 0.7 * (x as real - Averaged(ys))
  {
    assert (ys + [x])[..|ys|] == ys;
  }

  lemma Regroup(a: real, b: real)
    ensures 0.7 * (a * b) == (0.7 * a) * b
  {
  }
}
