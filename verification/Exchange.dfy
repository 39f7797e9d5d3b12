/** One DNS exchange between two nodes: request, responder's merge, aliased reply, requester's merge. */
module Exchanges {
  import opened Lists
  import opened Records
  import opened PoolSpec

  /** What a requester pushes: every domain with at least one address, lists copied. */
  function RequestOf(m: map<Domain, Record>): map<Domain, PeerRecord> {
    map d | d in m && (m[d].v4 != [] || m[d].v6 != []) :: PeerRecord(m[d].v4, m[d].v6)
  }

  /** What a responder answers: headers taken before its merge, read after it. */
  function ReplyOf(m: map<Domain, Record>, req: map<Domain, PeerRecord>, m': map<Domain, Record>): map<Domain, PeerRecord>
    requires m.Keys <= m'.Keys
  {
    map d | d in m :: if d in req then Views(m[d], m'[d]) else PeerRecord(m[d].v4, m[d].v6)
  }

  /** A complete exchange: a pushes to b, b merges and answers, a merges the answer. */
  ghost predicate Completes(a: map<Domain, Record>, b: map<Domain, Record>,
                            a': map<Domain, Record>, b': map<Domain, Record>)
  {
    && MergeAll(b, RequestOf(a), b')
    && MergeAll(a, ReplyOf(b, RequestOf(a), b'), a')
  }

  ghost predicate TypedRecord(r: Record) { RecordInv(r) && WellTyped(r.v4, r.v6) }

  ghost predicate AllTyped(m: map<Domain, Record>) {
    forall d :: d in m ==> TypedRecord(m[d])
  }

  ghost predicate SameCandidateSets(a: Record, b: Record) {
    Elements(a.v4) == Elements(b.v4) && Elements(a.v6) == Elements(b.v6)
  }

  lemma AliasElements(prev: seq<Ip>, next: seq<Ip>)
    ensures Elements(AliasView(prev, next)) <= Elements(prev) + Elements(next)
    ensures |prev| <= |next| ==> Elements(AliasView(prev, next)) <= Elements(next)
    ensures |prev| == |next| ==> AliasView(prev, next) == next
  {
  }

  lemma TypedSubset(v4: seq<Ip>, v6: seq<Ip>, w4: seq<Ip>, w6: seq<Ip>)
    requires WellTyped(v4, v6)
    requires Elements(w4) <= Elements(v4) && Elements(w6) <= Elements(v6)
    ensures WellTyped(w4, w6)
  {
    forall x | x in w4 ensures !x.V6? { assert x in Elements(w4) && x in Elements(v4); }
    forall x | x in w6 ensures !x.V4? { assert x in Elements(w6) && x in Elements(v6); }
  }

  lemma TypedUnion(a: Record, p: PeerRecord)
    requires TypedRecord(a) && WellTyped(p.v4, p.v6)
    ensures WellTyped(a.v4 + p.v4, a.v6 + p.v6)
    ensures Fam4(a.white + Elements(p.v4) + Elements(p.v6)) <= Elements(a.v4) + Elements(p.v4)
    ensures Fam6(a.white + Elements(p.v4) + Elements(p.v6)) <= Elements(a.v6) + Elements(p.v6)
  {
    forall x | x in a.white && x.V4? ensures x in Elements(a.v4) { assert x in Fam4(a.white); }
    forall x | x in a.white && x.V6? ensures x in Elements(a.v6) { assert x in Fam6(a.white); }
  }

  /** Between well-typed lists the whitelist fold adds nothing: merging is plain union per family. */
  lemma TypedMerge(a: Record, p: PeerRecord, b: Record)
    requires TypedRecord(a) && WellTyped(p.v4, p.v6) && IsMerge(a, p, b)
    ensures Elements(b.v4) == Elements(a.v4) + Elements(p.v4)
    ensures Elements(b.v6) == Elements(a.v6) + Elements(p.v6)
    ensures TypedRecord(b)
  {
    hide IsMerge, Fam4, Fam6, WellTyped, Elements;
    MergeIsJoin(a, p, b);
    MergeKeepsInv(a, p, b);
    TypedUnion(a, p);
    ElementsConcat(a.v4, p.v4);
    ElementsConcat(a.v6, p.v6);
    TypedSubset(a.v4 + p.v4, a.v6 + p.v6, b.v4, b.v6);
  }

  /** For lists listed without repetition, equal sets mean equal lengths. */
  lemma SameSetSameLength(s: seq<Ip>, t: seq<Ip>)
    requires NoDup(s) && NoDup(t) && Elements(s) <= Elements(t)
    ensures |s| <= |t|
    ensures Elements(s) == Elements(t) ==> |s| == |t|
  {
    ElementsSize(s);
    ElementsSize(t);
    SubsetSize(Elements(s), Elements(t));
  }

  /** One record's half of an exchange at the responder, and what its reply then shows. */
  lemma ServedRecord(a: Record, b: Record, b': Record)
    requires TypedRecord(a) && TypedRecord(b) && IsMerge(b, PeerRecord(a.v4, a.v6), b')
    ensures TypedRecord(b')
    ensures Elements(b'.v4) == Elements(b.v4) + Elements(a.v4) && Elements(b'.v6) == Elements(b.v6) + Elements(a.v6)
    ensures var v := Views(b, b');
      && Elements(v.v4) <= Elements(b'.v4) && Elements(v.v6) <= Elements(b'.v6)
      && (Elements(a.v4) <= Elements(b.v4) ==> Elements(v.v4) == Elements(b'.v4))
      && (Elements(a.v6) <= Elements(b.v6) ==> Elements(v.v6) == Elements(b'.v6))
      && WellTyped(v.v4, v.v6)
  {
    hide IsMerge, Fam4, Fam6, WellTyped, Elements, AliasView;
    TypedMerge(b, PeerRecord(a.v4, a.v6), b');
    ServedList(a.v4, b.v4, b'.v4);
    ServedList(a.v6, b.v6, b'.v6);
    var v := Views(b, b');
    TypedSubset(b'.v4, b'.v6, v.v4, v.v6);
  }

  lemma ServedList(a: seq<Ip>, b: seq<Ip>, b': seq<Ip>)
    requires NoDup(b) && NoDup(b') && Elements(b') == Elements(b) + Elements(a)
    ensures Elements(AliasView(b, b')) <= Elements(b')
    ensures Elements(a) <= Elements(b) ==> AliasView(b, b') == b'
  {
    SameSetSameLength(b, b');
    AliasElements(b, b');
    if Elements(a) <= Elements(b) { assert Elements(b') == Elements(b); }
  }

  lemma MergeAllAt(m: map<Domain, Record>, peers: map<Domain, PeerRecord>, m': map<Domain, Record>, d: Domain)
    requires MergeAll(m, peers, m')
    ensures d in peers ==> IsMerge(Get(m, d), peers[d], Get(m', d))
    ensures d !in peers ==> Get(m', d) == Get(m, d)
  {
    hide IsMerge;
  }

  lemma TypedGet(m: map<Domain, Record>, d: Domain)
    requires AllTyped(m)
    ensures TypedRecord(Get(m, d))
  {
  }

  /** After a complete exchange the responder holds both sides' candidates, the requester at most those. */
  lemma ExchangeAt(a: map<Domain, Record>, b: map<Domain, Record>, a': map<Domain, Record>, b': map<Domain, Record>,
                   d: Domain)
    requires AllTyped(a) && AllTyped(b) && Completes(a, b, a', b')
    ensures var ra, rb, ra', rb' := Get(a, d), Get(b, d), Get(a', d), Get(b', d);
      && TypedRecord(ra') && TypedRecord(rb')
      && Elements(rb'.v4) == Elements(ra.v4) + Elements(rb.v4)
      && Elements(rb'.v6) == Elements(ra.v6) + Elements(rb.v6)
      && Elements(ra.v4) <= Elements(ra'.v4) <= Elements(rb'.v4)
      && Elements(ra.v6) <= Elements(ra'.v6) <= Elements(rb'.v6)
      && (Elements(ra.v4) <= Elements(rb.v4) ==> Elements(ra'.v4) == Elements(rb'.v4))
      && (Elements(ra.v6) <= Elements(rb.v6) ==> Elements(ra'.v6) == Elements(rb'.v6))
  {
    hide IsMerge, Views, Elements, WellTyped, RecordInv;
    var req := RequestOf(a);
    var reply := ReplyOf(b, req, b');
    var ra, rb, ra', rb' := Get(a, d), Get(b, d), Get(a', d), Get(b', d);
    TypedGet(a, d);
    TypedGet(b, d);
    MergeAllAt(b, req, b', d);
    MergeAllAt(a, reply, a', d);
    if d in req {
      ServedRecord(ra, rb, rb');
    } else {
      ElementsEmpty(ra.v4);
      ElementsEmpty(ra.v6);
    }
    if d in b {
      TypedMerge(ra, reply[d], ra');
    } else {
      ElementsEmpty(rb.v4);
      ElementsEmpty(rb.v6);
    }
  }

  lemma ExchangeKeepsTyped(a: map<Domain, Record>, b: map<Domain, Record>,
                           a': map<Domain, Record>, b': map<Domain, Record>)
    requires AllTyped(a) && AllTyped(b) && Completes(a, b, a', b')
    ensures AllTyped(a') && AllTyped(b')
  {
    hide TypedRecord, Completes;
    forall d | d in a' ensures TypedRecord(a'[d]) { ExchangeAt(a, b, a', b', d); }
    forall d | d in b' ensures TypedRecord(b'[d]) { ExchangeAt(a, b, a', b', d); }
  }

  /** Two complete exchanges in a row, a pushing both times, leave both nodes with the same candidates. */
  lemma TwoExchangesConverge(a: map<Domain, Record>, b: map<Domain, Record>,
                             a1: map<Domain, Record>, b1: map<Domain, Record>,
                             a2: map<Domain, Record>, b2: map<Domain, Record>, d: Domain)
    requires AllTyped(a) && AllTyped(b)
    requires Completes(a, b, a1, b1) && Completes(a1, b1, a2, b2)
    ensures SameCandidateSets(Get(a2, d), Get(b2, d))
    ensures Elements(Get(a2, d).v4) == Elements(Get(a, d).v4) + Elements(Get(b, d).v4)
    ensures Elements(Get(a2, d).v6) == Elements(Get(a, d).v6) + Elements(Get(b, d).v6)
  {
    hide Completes, TypedRecord;
    ExchangeKeepsTyped(a, b, a1, b1);
    ExchangeAt(a, b, a1, b1, d);
    ExchangeAt(a1, b1, a2, b2, d);
  }

  /** The same when the second exchange is pushed by the other node. */
  lemma CrossedExchangesConverge(a: map<Domain, Record>, b: map<Domain, Record>,
                                 a1: map<Domain, Record>, b1: map<Domain, Record>,
                                 a2: map<Domain, Record>, b2: map<Domain, Record>, d: Domain)
    requires AllTyped(a) && AllTyped(b)
    requires Completes(a, b, a1, b1) && Completes(b1, a1, b2, a2)
    ensures SameCandidateSets(Get(a2, d), Get(b2, d))
  {
    hide Completes, TypedRecord;
    ExchangeKeepsTyped(a, b, a1, b1);
    ExchangeAt(a, b, a1, b1, d);
    ExchangeAt(b1, a1, b2, a2, d);
  }

  // ---------------------------------------------------------------- exactly when one exchange is enough

  /** One domain's part of a complete exchange, when both nodes know the domain. */
  ghost predicate RecordCompletes(a: Record, b: Record, a': Record, b': Record) {
    && IsMerge(b, PeerRecord(a.v4, a.v6), b')
    && IsMerge(a, Views(b, b'), a')
  }

  /** A complete exchange of two pools is, for every domain both know, that exchange of the two records. */
  lemma CompletesAt(a: map<Domain, Record>, b: map<Domain, Record>, a': map<Domain, Record>, b': map<Domain, Record>,
                    d: Domain)
    requires Completes(a, b, a', b') && d in a && d in b
    requires a[d].v4 != [] || a[d].v6 != []
    ensures d in a' && d in b' && RecordCompletes(a[d], b[d], a'[d], b'[d])
  {
    hide IsMerge, Views;
    MergeAllAt(b, RequestOf(a), b', d);
    MergeAllAt(a, ReplyOf(b, RequestOf(a), b'), a', d);
  }

  /** Which domains each node knows afterwards, and what an exchange means for those only one of them knew. */
  lemma ExchangeDomains(a: map<Domain, Record>, b: map<Domain, Record>, a': map<Domain, Record>, b': map<Domain, Record>,
                        d: Domain)
    requires Completes(a, b, a', b')
    ensures d in b' <==> d in b || (d in a && (a[d].v4 != [] || a[d].v6 != []))
    ensures d in a' <==> d in a || d in b
    ensures d in b' && d !in b ==> IsMerge(EMPTY, PeerRecord(a[d].v4, a[d].v6), b'[d])
    ensures d in a && d !in b ==> a'[d] == a[d]
    ensures d in b && (d !in a || (a[d].v4 == [] && a[d].v6 == [])) ==>
      b'[d] == b[d] && IsMerge(Get(a, d), PeerRecord(b[d].v4, b[d].v6), a'[d])
  {
    hide IsMerge, Views;
  }

  /** What the headers of one rewritten list read: as long as the list was, and nothing but merged addresses. */
  lemma HeaderReads(prev: seq<Ip>, first: set<Ip>, extra: set<Ip>, next: seq<Ip>)
    requires ListsThen(next, first, extra) && Elements(prev) <= first
    ensures |AliasView(prev, next)| == |prev|
    ensures Elements(AliasView(prev, next)) <= Elements(next)
    ensures NoDup(prev) ==> AliasView(prev, next) <= next
    ensures NoDup(prev) && Elements(next) == Elements(prev) ==> AliasView(prev, next) == next
  {
    AliasElements(prev, next);
    if NoDup(prev) {
      hide ListsThen;
      SameSetSameLength(prev, next);
    }
  }

  /** The answer for a domain the responder knows. */
  ghost predicate Answers(prev: Record, next: Record, asked: bool, answer: PeerRecord) {
    && |answer.v4| == |prev.v4| && |answer.v6| == |prev.v6|
    && Elements(answer.v4) <= Elements(next.v4) && Elements(answer.v6) <= Elements(next.v6)
    && (asked && NoDup(prev.v4) ==> answer.v4 <= next.v4) && (asked && NoDup(prev.v6) ==> answer.v6 <= next.v6)
    && (!asked ==> answer == PeerRecord(prev.v4, prev.v6))
  }

  /**
   * For every domain the responder knew, and no other, the answer has lists as long as the old ones, taken from the
   * merged ones: their first entries, if the request named the domain and the old lists had no repetition.
   */
  lemma ReplyAt(m: map<Domain, Record>, req: map<Domain, PeerRecord>, m': map<Domain, Record>, d: Domain)
    requires MergeAll(m, req, m')
    ensures m.Keys <= m'.Keys
    ensures d in ReplyOf(m, req, m') <==> d in m
    ensures d in m ==> Answers(m[d], m'[d], d in req, ReplyOf(m, req, m')[d])
  {
    hide IsMerge, Views, Answers;
    if d in m {
      MergeAllAt(m, req, m', d);
      if d in req { MergedHeaders(m[d], req[d], m'[d]); } else { UnaskedAnswer(m[d]); }
    }
  }

  lemma UnaskedAnswer(r: Record)
    ensures Answers(r, r, false, PeerRecord(r.v4, r.v6))
  {
  }

  lemma MergedHeaders(a: Record, p: PeerRecord, b: Record)
    requires IsMerge(a, p, b)
    ensures Answers(a, b, true, Views(a, b))
  {
    var w := a.white + Elements(p.v4) + Elements(p.v6);
    var u4, u6 := Elements(a.v4) + Elements(p.v4), Elements(a.v6) + Elements(p.v6);
    hide ListsThen, AliasView, Elements, NoDup;
    HeaderReads(a.v4, u4, Fam4(w) - u4, b.v4);
    HeaderReads(a.v6, u6, Fam6(w) - u6, b.v6);
  }

  ghost predicate Comparable(s: seq<Ip>, t: seq<Ip>) {
    Elements(s) <= Elements(t) || Elements(t) <= Elements(s)
  }

  /** A rebuild order that puts an address only b has last, if there is one. */
  ghost function WorstOrder(a: set<Ip>, b: set<Ip>): (s: seq<Ip>)
    ensures NoDup(s) && Elements(s) == a + b
  {
    if b - a == {} then Listing(a + b) else
      var y :| y in b - a;
      var rest := Listing(a + b - {y});
      ElementsSnoc(rest, y);
      NoDupSnoc(rest, y);
      rest + [y]
  }

  lemma WorstOrderMisses(a: seq<Ip>, b: seq<Ip>)
    requires NoDup(b) && !Comparable(a, b)
    ensures !(Elements(b) <= Elements(a) + Elements(AliasView(b, WorstOrder(Elements(a), Elements(b)))))
  {
    var sa, sb := Elements(a), Elements(b);
    var s := WorstOrder(sa, sb);
    var y := s[|s| - 1];
    assert sa + sb != sb;
    ElementsSize(s);
    ElementsSize(b);
    SubsetSize(sb, sa + sb);
    assert |b| < |s|;
    assert y !in Elements(s[..|b|]);
    assert y in sb - sa by { LastOfWorstOrder(sa, sb); }
  }

  lemma LastOfWorstOrder(a: set<Ip>, b: set<Ip>)
    requires !(b <= a)
    ensures WorstOrder(a, b) != []
    ensures WorstOrder(a, b)[|WorstOrder(a, b)| - 1] in b - a
  {
  }

  /** A merge result that lists the two families in the given orders. */
  lemma MergeInOrder(a: Record, p: PeerRecord, o4: seq<Ip>, o6: seq<Ip>) returns (b: Record)
    requires TypedRecord(a) && WellTyped(p.v4, p.v6)
    requires NoDup(o4) && Elements(o4) == Elements(a.v4) + Elements(p.v4)
    requires NoDup(o6) && Elements(o6) == Elements(a.v6) + Elements(p.v6)
    ensures IsMerge(a, p, b) && b.v4 == o4 && b.v6 == o6
  {
    var w := a.white + Elements(p.v4) + Elements(p.v6);
    b := a.(v4 := o4, v6 := o6, white := w);
    assert Fam4(w) <= Elements(o4);
    assert Fam6(w) <= Elements(o6);
    OrderLists(o4, Fam4(w));
    OrderLists(o6, Fam6(w));
  }

  lemma OrderLists(o: seq<Ip>, fold: set<Ip>)
    requires NoDup(o) && fold <= Elements(o)
    ensures ListsThen(o, Elements(o), fold - Elements(o))
  {
    ElementsSize(o);
    assert o[..|o|] == o;
  }

  lemma OneExchangeCanMiss(a: Record, b: Record) returns (a': Record, b': Record)
    requires TypedRecord(a) && TypedRecord(b)
    requires !Comparable(a.v4, b.v4) || !Comparable(a.v6, b.v6)
    ensures RecordCompletes(a, b, a', b') && !SameCandidateSets(a', b')
  {
    var p := PeerRecord(a.v4, a.v6);
    var o4 := WorstOrder(Elements(a.v4), Elements(b.v4));
    var o6 := WorstOrder(Elements(a.v6), Elements(b.v6));
    b' := MergeInOrder(b, p, o4, o6);
    ServedRecord(a, b, b');
    var v := Views(b, b');
    a' := MergeInOrder(a, v, Listing(Elements(a.v4) + Elements(v.v4)), Listing(Elements(a.v6) + Elements(v.v6)));
    if !Comparable(a.v4, b.v4) {
      WorstOrderMisses(a.v4, b.v4);
    } else {
      WorstOrderMisses(a.v6, b.v6);
    }
  }

  lemma OneExchangeSuffices(a: Record, b: Record, a': Record, b': Record)
    requires TypedRecord(a) && TypedRecord(b)
    requires Comparable(a.v4, b.v4) && Comparable(a.v6, b.v6)
    requires RecordCompletes(a, b, a', b')
    ensures SameCandidateSets(a', b')
  {
    hide IsMerge, Views;
    ServedRecord(a, b, b');
    TypedMerge(a, Views(b, b'), a');
  }

  /**
   * Because the reply is read through the rewritten arrays, one exchange is certain to equalise two records
   * exactly when, in each family, one node's list already contains the other's.
   */
  lemma OneExchangeEnough(a: Record, b: Record)
    requires TypedRecord(a) && TypedRecord(b)
    ensures (forall a', b' :: RecordCompletes(a, b, a', b') ==> SameCandidateSets(a', b'))
       <==> Comparable(a.v4, b.v4) && Comparable(a.v6, b.v6)
  {
    if Comparable(a.v4, b.v4) && Comparable(a.v6, b.v6) {
      forall a', b' | RecordCompletes(a, b, a', b') ensures SameCandidateSets(a', b') {
        OneExchangeSuffices(a, b, a', b');
      }
    } else {
      var a', b' := OneExchangeCanMiss(a, b);
    }
  }

  // ---------------------------------------------------------------- without typing

  /** How many candidates two records hold between them, by family. */
  function Held(a: Record, b: Record): nat {
    |Elements(a.v4)| + |Elements(a.v6)| + |Elements(b.v4)| + |Elements(b.v6)|
  }

  lemma AliasAll(prev: seq<Ip>, next: seq<Ip>)
    requires NoDup(prev) && NoDup(next) && Elements(prev) == Elements(next)
    ensures AliasView(prev, next) == next
  {
    SameSetSameLength(prev, next);
    AliasElements(prev, next);
  }

  /** An exchange, between any two records, that changes neither one's candidates finds them equal. */
  lemma IdleExchangeMeansEqual(a: Record, b: Record, a': Record, b': Record)
    requires RecordInv(a) && RecordInv(b) && RecordCompletes(a, b, a', b')
    requires SameCandidateSets(a, a') && SameCandidateSets(b, b')
    ensures SameCandidateSets(a', b')
  {
    hide IsMerge, RecordInv, Elements, AliasView, NoDup;
    MergeOfInv(b, PeerRecord(a.v4, a.v6), b');
    MergeInflates(b, PeerRecord(a.v4, a.v6), b');
    MergeInflates(a, Views(b, b'), a');
    InvNoDup(b);
    InvNoDup(b');
    AliasAll(b.v4, b'.v4);
    AliasAll(b.v6, b'.v6);
  }

  /** An exchange loses no candidate, and either changes none or leaves more than there were. */
  lemma ExchangeGrows(a: Record, b: Record, a': Record, b': Record)
    requires RecordInv(a) && RecordInv(b) && RecordCompletes(a, b, a', b')
    ensures RecordInv(a') && RecordInv(b')
    ensures Held(a', b') > Held(a, b) || (SameCandidateSets(a, a') && SameCandidateSets(b, b'))
  {
    MergeOfInv(b, PeerRecord(a.v4, a.v6), b');
    MergeOfInv(a, Views(b, b'), a');
    MergeInflates(b, PeerRecord(a.v4, a.v6), b');
    MergeInflates(a, Views(b, b'), a');
    hide IsMerge, RecordInv, Elements;
    SubsetSize(Elements(a.v4), Elements(a'.v4));
    SubsetSize(Elements(a.v6), Elements(a'.v6));
    SubsetSize(Elements(b.v4), Elements(b'.v4));
    SubsetSize(Elements(b.v6), Elements(b'.v6));
  }

  /** as and bs are two nodes' records of a domain as one complete exchange follows another. */
  ghost predicate ExchangeRun(as_: seq<Record>, bs: seq<Record>) {
    && |as_| == |bs| > 0 && RecordInv(as_[0]) && RecordInv(bs[0])
    && (forall i :: 0 <= i < |as_| - 1 ==> RecordCompletes(as_[i], bs[i], as_[i + 1], bs[i + 1]))
  }

  ghost predicate EqualBy(as_: seq<Record>, bs: seq<Record>, n: nat)
    requires |as_| == |bs|
  {
    exists i :: 0 < i <= n && i < |as_| && SameCandidateSets(as_[i], bs[i])
  }

  lemma {:induction false} EqualOrGrown(as_: seq<Record>, bs: seq<Record>, n: nat)
    requires ExchangeRun(as_, bs) && n < |as_|
    ensures RecordInv(as_[n]) && RecordInv(bs[n])
    ensures EqualBy(as_, bs, n) || Held(as_[n], bs[n]) >= Held(as_[0], bs[0]) + n
  {
    hide RecordInv, SameCandidateSets, RecordCompletes, Held;
    if n > 0 {
      EqualOrGrown(as_, bs, n - 1);
      assert RecordCompletes(as_[n - 1], bs[n - 1], as_[n], bs[n]);
      ExchangeGrows(as_[n - 1], bs[n - 1], as_[n], bs[n]);
      if SameCandidateSets(as_[n - 1], as_[n]) && SameCandidateSets(bs[n - 1], bs[n]) {
        IdleExchangeMeansEqual(as_[n - 1], bs[n - 1], as_[n], bs[n]);
        assert EqualBy(as_, bs, n);
      }
    }
  }

  /**
   * However addresses are filed: if two nodes' candidates of a domain stay within a finite set u, then after at most
   * 4 |u| + 1 complete exchanges between them they have held the same candidates.
   */
  lemma ExchangesEventuallyEqual(as_: seq<Record>, bs: seq<Record>, u: set<Ip>)
    requires ExchangeRun(as_, bs) && |as_| == 4 * |u| + 2
    requires var n := |as_| - 1; Elements(as_[n].v4) + Elements(as_[n].v6) + Elements(bs[n].v4) + Elements(bs[n].v6) <= u
    ensures EqualBy(as_, bs, 4 * |u| + 1)
  {
    var n := |as_| - 1;
    EqualOrGrown(as_, bs, n);
    hide RecordInv, RecordCompletes, EqualBy;
    SubsetSize(Elements(as_[n].v4), u);
    SubsetSize(Elements(as_[n].v6), u);
    SubsetSize(Elements(bs[n].v4), u);
    SubsetSize(Elements(bs[n].v6), u);
  }
}
