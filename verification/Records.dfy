/** A domain's record in the DNS pool, and what each operation does to one record. */
module Records {
  import opened Lists

  type Domain = string

  /** An address string, tagged with what net.ParseIP and To4 say about it. */
  datatype Ip = V4(text: string) | V6(text: string) | Bad(text: string)

  /** The candidate lists one node sends to another; the lists are not type-checked. */
  datatype PeerRecord = PeerRecord(v4: seq<Ip>, v6: seq<Ip>)

  datatype Record = Record(
    v4: seq<Ip>, v6: seq<Ip>,
    black: set<Ip>, white: set<Ip>,
    next4: nat, next6: nat, preferV6: bool,
    updatedAt: int,
    ewma4: real, ewma6: real, ipLatency: map<Ip, real>)

  const EMPTY := Record([], [], {}, {}, 0, 0, false, 0, 0.0, 0.0, map[])

  function Get(records: map<Domain, Record>, d: Domain): Record {
    if d in records then records[d] else EMPTY
  }

  function Fam4(xs: set<Ip>): set<Ip> { set x | x in xs && x.V4? }
  function Fam6(xs: set<Ip>): set<Ip> { set x | x in xs && x.V6? }

  /** What every operation keeps: duplicate-free lists that cover the blacklist and the typed whitelist. */
  ghost predicate RecordInv(r: Record) {
    && NoDup(r.v4) && NoDup(r.v6)
    && r.black <= Elements(r.v4) + Elements(r.v6)
    && Fam4(r.white) <= Elements(r.v4)
    && Fam6(r.white) <= Elements(r.v6)
  }

  ghost predicate AllInv(records: map<Domain, Record>) {
    forall d :: d in records ==> RecordInv(records[d])
  }

  lemma InvNoDup(r: Record)
    requires RecordInv(r)
    ensures NoDup(r.v4) && NoDup(r.v6)
  {
  }

  /** No IPv6 address sits in the IPv4 list and no IPv4 address in the IPv6 list. */
  ghost predicate WellTyped(v4: seq<Ip>, v6: seq<Ip>) {
    && (forall x :: x in v4 ==> !x.V6?)
    && (forall x :: x in v6 ==> !x.V4?)
  }

  // ---------------------------------------------------------------- save

  /** Appends the entries of xs that are not there yet, in order, each once. */
  function AppendNew(base: seq<Ip>, xs: seq<Ip>): seq<Ip> {
    if xs == [] then base else
      var s := AppendNew(base, xs[..|xs| - 1]);
      var x := xs[|xs| - 1];
      if x in s then s else s + [x]
  }

  function Combine(base: seq<Ip>, xs: seq<Ip>): seq<Ip> {
    if base == [] then xs else AppendNew(base, xs)
  }

  function BoundIndex(wanted: nat, current: nat, len: nat): nat {
    if wanted != 0 then wanted % (if len > 1 then len else 1)
    else if current >= len then 0 else current
  }

  function Saved(prev: Record, found: Record): Record {
    var v4 := Combine(prev.v4, found.v4);
    var v6 := Combine(prev.v6, found.v6);
    prev.(v4 := v4, v6 := v6, updatedAt := found.updatedAt, preferV6 := found.preferV6,
         next4 := BoundIndex(found.next4, prev.next4, |v4|),
         next6 := BoundIndex(found.next6, prev.next6, |v6|))
  }

  lemma {:induction false} AppendNewFacts(base: seq<Ip>, xs: seq<Ip>)
    ensures base <= AppendNew(base, xs)
    ensures Elements(AppendNew(base, xs)) == Elements(base) + Elements(xs)
    ensures NoDup(base) ==> NoDup(AppendNew(base, xs))
  {
    if xs != [] {
      var ys, x := xs[..|xs| - 1], xs[|xs| - 1];
      AppendNewFacts(base, ys);
      assert xs == ys + [x];
      ElementsSnoc(ys, x);
      ElementsSnoc(AppendNew(base, ys), x);
    }
  }

  /** Old lists stay prefixes, the new sets are the unions, and both indices end inside their lists. */
  lemma SaveKeepsOldAddsNew(prev: Record, found: Record)
    ensures var r := Saved(prev, found);
      && prev.v4 <= r.v4 && prev.v6 <= r.v6
      && Elements(r.v4) == Elements(prev.v4) + Elements(found.v4)
      && Elements(r.v6) == Elements(prev.v6) + Elements(found.v6)
      && 0 <= r.next4 < (if |r.v4| > 1 then |r.v4| else 1)
      && 0 <= r.next6 < (if |r.v6| > 1 then |r.v6| else 1)
      && r.black == prev.black && r.white == prev.white
    ensures RecordInv(prev) && NoDup(found.v4) && NoDup(found.v6) ==> RecordInv(Saved(prev, found))
  {
    AppendNewFacts(prev.v4, found.v4);
    AppendNewFacts(prev.v6, found.v6);
  }

  /** The positions in xs, in order, of the entries a save appends: each the first place of an address base lacks. */
  lemma {:induction false} AppendsInOrder(base: seq<Ip>, xs: seq<Ip>) returns (at: seq<nat>)
    ensures |at| == |AppendNew(base, xs)| - |base|
    ensures forall p :: 0 <= p < |at| ==>
      at[p] < |xs| && AppendNew(base, xs)[|base| + p] == xs[at[p]] && xs[at[p]] !in base && xs[at[p]] !in xs[..at[p]]
    ensures forall p, q :: 0 <= p < q < |at| ==> at[p] < at[q]
  {
    at := [];
    if xs != [] {
      var n := |xs| - 1;
      var ys, x := xs[..n], xs[n];
      at := AppendsInOrder(base, ys);
      AppendNewFacts(base, ys);
      var s := AppendNew(base, ys);
      assert forall p :: 0 <= p < |at| ==> ys[..at[p]] == xs[..at[p]];
      if x !in s {
        assert x !in Elements(base) + Elements(ys);
        at := at + [n];
      }
    }
  }

  /**
   * A save takes over time and preference, copies the lists of a family it had nothing of, keeps or resets an index
   * it is given none for, and leaves every latency alone.
   */
  lemma SaveFrame(prev: Record, found: Record)
    ensures var r := Saved(prev, found);
      && r.updatedAt == found.updatedAt && r.preferV6 == found.preferV6
      && r.ewma4 == prev.ewma4 && r.ewma6 == prev.ewma6 && r.ipLatency == prev.ipLatency
      && (prev.v4 == [] ==> r.v4 == found.v4) && (prev.v6 == [] ==> r.v6 == found.v6)
      && (found.next4 == 0 ==> r.next4 == if prev.next4 < |r.v4| then prev.next4 else 0)
      && (found.next6 == 0 ==> r.next6 == if prev.next6 < |r.v6| then prev.next6 else 0)
      && (0 < found.next4 < |r.v4| ==> r.next4 == found.next4)
      && (0 < found.next6 < |r.v6| ==> r.next6 == found.next6)
      && (found.next4 > 0 && r.v4 != [] ==> r.next4 == found.next4 % |r.v4|)
      && (found.next6 > 0 && r.v6 != [] ==> r.next6 == found.next6 % |r.v6|)
  {
    hide AppendNew;
  }

  /** An IPv6-only record in mid-rotation is sent back to its first address by a save that finds nothing new. */
  lemma SaveCanRestartRotation(x: Ip, y: Ip) returns (prev: Record)
    requires x.V6? && y.V6? && x != y
    ensures RecordInv(prev) && prev.v6 == [x, y] && prev.next4 == 1
    ensures Saved(prev, EMPTY.(v6 := prev.v6)).next4 == 0
    ensures Saved(prev, EMPTY.(v6 := prev.v6)).v6 == prev.v6
  {
    prev := EMPTY.(v6 := [x, y], next4 := 1);
    assert [x, y][..1] == [x] && [x][..0] == [];
    assert AppendNew([x, y], [x]) == [x, y];
  }

  // ---------------------------------------------------------------- whitelist folding

  ghost predicate Extends(prev: seq<Ip>, new_: seq<Ip>, extra: set<Ip>) {
    && prev <= new_
    && NoDup(new_[|prev|..])
    && Elements(new_[|prev|..]) == extra
  }

  /** b is a after every typed whitelist address missing from its family's list was appended, in any order. */
  ghost predicate IsFold(a: Record, b: Record) {
    && Extends(a.v4, b.v4, Fam4(a.white) - Elements(a.v4))
    && Extends(a.v6, b.v6, Fam6(a.white) - Elements(a.v6))
    && b == a.(v4 := b.v4, v6 := b.v6)
  }

  lemma ExtendsElements(prev: seq<Ip>, new_: seq<Ip>, extra: set<Ip>)
    requires Extends(prev, new_, extra)
    ensures Elements(new_) == Elements(prev) + extra
    ensures extra == {} ==> new_ == prev
    ensures NoDup(prev) && extra !! Elements(prev) ==> NoDup(new_)
  {
    var tail := new_[|prev|..];
    assert new_ == prev + tail;
    ElementsConcat(prev, tail);
    ElementsEmpty(tail);
    if extra !! Elements(prev) {
      forall i, j | 0 <= i < |prev| && 0 <= j < |tail|
        ensures prev[i] != tail[j]
      {
        assert prev[i] in Elements(prev) && tail[j] in Elements(tail);
      }
    }
  }

  /** Folding a record that satisfies the invariant changes nothing, so it can leave nothing unsaved. */
  lemma FoldIsNoop(a: Record, b: Record)
    requires IsFold(a, b)
    requires Fam4(a.white) <= Elements(a.v4) && Fam6(a.white) <= Elements(a.v6)
    ensures b == a
  {
    ExtendsElements(a.v4, b.v4, Fam4(a.white) - Elements(a.v4));
    ExtendsElements(a.v6, b.v6, Fam6(a.white) - Elements(a.v6));
  }

  lemma FoldSelf(r: Record)
    requires RecordInv(r)
    ensures IsFold(r, r)
  {
    ElementsEmpty(r.v4[|r.v4|..]);
    ElementsEmpty(r.v6[|r.v6|..]);
  }

  /** Folding only adds typed whitelist addresses and establishes the whitelist half of the invariant. */
  lemma FoldNormalises(a: Record, b: Record)
    requires IsFold(a, b)
    ensures a.v4 <= b.v4 && a.v6 <= b.v6
    ensures Elements(b.v4) == Elements(a.v4) + Fam4(a.white)
    ensures Elements(b.v6) == Elements(a.v6) + Fam6(a.white)
    ensures NoDup(a.v4) && NoDup(a.v6) && a.black <= Elements(a.v4) + Elements(a.v6) ==> RecordInv(b)
  {
    ExtendsElements(a.v4, b.v4, Fam4(a.white) - Elements(a.v4));
    ExtendsElements(a.v6, b.v6, Fam6(a.white) - Elements(a.v6));
  }

  /** Normalising twice is normalising once. */
  lemma FoldTwiceIsOnce(a: Record, b: Record, c: Record)
    requires IsFold(a, b) && IsFold(b, c)
    ensures c == b
  {
    FoldNormalises(a, b);
    FoldIsNoop(b, c);
  }

  // ---------------------------------------------------------------- reports

  function WithObserved(r: Record, ip: Ip): Record {
    if ip.V6?
    then if ip in r.v6 then r else r.(v6 := r.v6 + [ip])
    else if ip in r.v4 then r else r.(v4 := r.v4 + [ip])
  }

  function Reported(r: Record, ip: Ip, status: int): Record {
    var s := WithObserved(r, ip);
    if status == 403 then s.(black := s.black + {ip}, white := s.white - {ip})
    else if status == 200 then s.(black := s.black - {ip}, white := s.white + {ip})
    else s
  }

  lemma ObservedKeepsInv(r: Record, ip: Ip)
    requires RecordInv(r)
    ensures var s := WithObserved(r, ip);
      && RecordInv(s)
      && r.v4 <= s.v4 && r.v6 <= s.v6
      && ip in (if ip.V6? then Elements(s.v6) else Elements(s.v4))
  {
    ElementsSnoc(r.v4, ip);
    ElementsSnoc(r.v6, ip);
  }

  /** A report makes the address a candidate, keeps both old lists as prefixes and keeps the invariant. */
  lemma ReportKeepsInv(r: Record, ip: Ip, status: int)
    requires RecordInv(r)
    ensures var t := Reported(r, ip, status);
      && RecordInv(t)
      && r.v4 <= t.v4 && r.v6 <= t.v6
      && ip in (if ip.V6? then Elements(t.v6) else Elements(t.v4))
  {
    ObservedKeepsInv(r, ip);
    var s, t := WithObserved(r, ip), Reported(r, ip, status);
    forall x | x in t.black ensures x in Elements(t.v4) + Elements(t.v6) {
      if x != ip { assert x in s.black; }
    }
    forall x | x in t.white && !x.Bad? ensures x in if x.V4? then Elements(t.v4) else Elements(t.v6) {
      if x != ip { assert x in s.white; assert x in Fam4(s.white) || x in Fam6(s.white); }
    }
  }

  /** A report appends at most its own address, to its own family's list, and touches only the two verdict sets besides. */
  lemma ReportFrame(r: Record, ip: Ip, status: int)
    ensures var t := Reported(r, ip, status);
      && t == r.(v4 := t.v4, v6 := t.v6, black := t.black, white := t.white)
      && (if ip.V6? then t.v4 == r.v4 else t.v6 == r.v6)
      && (ip in (if ip.V6? then r.v6 else r.v4) ==> t.v4 == r.v4 && t.v6 == r.v6)
      && (ip !in (if ip.V6? then r.v6 else r.v4) ==> t.v4 + t.v6 == if ip.V6? then r.v4 + r.v6 + [ip] else r.v4 + [ip] + r.v6)
      && t.black - {ip} == r.black - {ip} && t.white - {ip} == r.white - {ip}
      && (status != 403 && status != 200 ==> t.black == r.black && t.white == r.white)
  {
  }

  function Ewma(prev: real, sample: real): real {
    if prev == 0.0 then sample else 0.3 * sample + 0.7 * prev
  }

  function Timed(r: Record, ip: Ip, ms: int): Record {
    var x := ms as real;
    var before := if ip in r.ipLatency then r.ipLatency[ip] else 0.0;
    var s := r.(ipLatency := r.ipLatency[ip := Ewma(before, x)]);
    if ip.V6? then s.(ewma6 := Ewma(r.ewma6, x)) else s.(ewma4 := Ewma(r.ewma4, x))
  }

  predicate Between(a: real, x: real, b: real) {
    (a <= x <= b) || (b <= x <= a)
  }

  /** A sample moves only its own address's and family's average, to a value between the old one and the sample. */
  lemma TimedStaysBetween(r: Record, ip: Ip, ms: int)
    requires ms > 0
    ensures var t, x := Timed(r, ip, ms), ms as real;
      && ip in t.ipLatency
      && (if ip !in r.ipLatency || r.ipLatency[ip] == 0.0 then t.ipLatency[ip] == x
          else Between(r.ipLatency[ip], t.ipLatency[ip], x) && (r.ipLatency[ip] != x ==> t.ipLatency[ip] != r.ipLatency[ip]))
      && (forall y :: y in r.ipLatency && y != ip ==> y in t.ipLatency && t.ipLatency[y] == r.ipLatency[y])
      && (if ip.V6? then t.ewma4 == r.ewma4 && (r.ewma6 != 0.0 ==> Between(r.ewma6, t.ewma6, x))
          else t.ewma6 == r.ewma6 && (r.ewma4 != 0.0 ==> Between(r.ewma4, t.ewma4, x)))
      && t == r.(ipLatency := t.ipLatency, ewma4 := t.ewma4, ewma6 := t.ewma6)
  {
  }

  // ---------------------------------------------------------------- merging a peer's lists

  /** s lists `first` and then `extra`, each address once, in some order within the two parts. */
  ghost predicate ListsThen(s: seq<Ip>, first: set<Ip>, extra: set<Ip>) {
    && NoDup(s)
    && |first| <= |s|
    && Elements(s[..|first|]) == first
    && Elements(s) == first + extra
  }

  /** b is a after merging p: rebuilt lists in any order, every named address whitelisted, nothing else touched. */
  ghost predicate IsMerge(a: Record, p: PeerRecord, b: Record) {
    var u4 := Elements(a.v4) + Elements(p.v4);
    var u6 := Elements(a.v6) + Elements(p.v6);
    var w := a.white + Elements(p.v4) + Elements(p.v6);
    && ListsThen(b.v4, u4, Fam4(w) - u4)
    && ListsThen(b.v6, u6, Fam6(w) - u6)
    && b == a.(v4 := b.v4, v6 := b.v6, white := w, updatedAt := b.updatedAt)
  }

  /** The part of a record that merging is about. */
  datatype Candidates = Candidates(v4: set<Ip>, v6: set<Ip>, white: set<Ip>)

  function Abs(r: Record): Candidates {
    Candidates(Elements(r.v4), Elements(r.v6), r.white)
  }

  /** The join of c with the addresses n4 and n6 named by peers, typed whitelist addresses folded in. */
  function Join(c: Candidates, n4: set<Ip>, n6: set<Ip>): Candidates {
    var w := c.white + n4 + n6;
    Candidates(c.v4 + n4 + Fam4(w), c.v6 + n6 + Fam6(w), w)
  }

  lemma JoinTwice(c: Candidates, a4: set<Ip>, a6: set<Ip>, b4: set<Ip>, b6: set<Ip>)
    ensures Join(Join(c, a4, a6), b4, b6) == Join(c, a4 + b4, a6 + b6)
  {
    assert c.white + a4 + a6 + b4 + b6 == c.white + (a4 + b4) + (a6 + b6);
  }

  /** On candidate and whitelist sets, one merge is a join. */
  lemma MergeIsJoin(a: Record, p: PeerRecord, b: Record)
    requires IsMerge(a, p, b)
    ensures Abs(b) == Join(Abs(a), Elements(p.v4), Elements(p.v6))
  {
  }

  lemma MergeKeepsInv(a: Record, p: PeerRecord, b: Record)
    requires IsMerge(a, p, b)
    requires a.black <= Elements(a.v4) + Elements(a.v6)
    ensures RecordInv(b)
  {
  }

  /** ms is a record and what it becomes as the lists ps are merged one after the other. */
  ghost predicate MergeRun(ms: seq<Record>, ps: seq<PeerRecord>) {
    && |ms| == |ps| + 1
    && (forall i :: 0 <= i < |ps| ==> IsMerge(ms[i], ps[i], ms[i + 1]))
  }

  ghost function Named4(ps: seq<PeerRecord>): set<Ip> { set i, x | 0 <= i < |ps| && x in ps[i].v4 :: x }
  ghost function Named6(ps: seq<PeerRecord>): set<Ip> { set i, x | 0 <= i < |ps| && x in ps[i].v6 :: x }

  /** Joins p after p, at the level of candidate sets. */
  function JoinAll(c: Candidates, ps: seq<PeerRecord>): Candidates {
    if ps == [] then c else
      var n := |ps| - 1;
      Join(JoinAll(c, ps[..n]), Elements(ps[n].v4), Elements(ps[n].v6))
  }

  lemma {:induction false} JoinAllClosed(c: Candidates, ps: seq<PeerRecord>)
    requires ps != []
    ensures JoinAll(c, ps) == Join(c, Named4(ps), Named6(ps))
  {
    var n := |ps| - 1;
    var qs, p := ps[..n], ps[n];
    assert ps == qs + [p];
    NamedSnoc(qs, p);
    if n == 0 {
      assert Named4(qs) == {} && Named6(qs) == {};
    } else {
      JoinAllClosed(c, qs);
      JoinTwice(c, Named4(qs), Named6(qs), Elements(p.v4), Elements(p.v6));
    }
  }

  lemma {:induction false} MergeRunAbs(ms: seq<Record>, ps: seq<PeerRecord>)
    requires MergeRun(ms, ps)
    ensures Abs(ms[|ps|]) == JoinAll(Abs(ms[0]), ps)
  {
    if ps != [] {
      var n := |ps| - 1;
      MergeIsJoin(ms[n], ps[n], ms[n + 1]);
      MergeRunAbs(ms[..n + 1], ps[..n]);
    }
  }

  /** A run of merges is one join of everything the merged lists name. */
  lemma MergeRunIsJoin(ms: seq<Record>, ps: seq<PeerRecord>)
    requires MergeRun(ms, ps) && ps != []
    ensures Abs(ms[|ps|]) == Join(Abs(ms[0]), Named4(ps), Named6(ps))
  {
    MergeRunAbs(ms, ps);
    JoinAllClosed(Abs(ms[0]), ps);
  }

  /** A run of merges leaves the blacklist, both indices and every latency as they were. */
  lemma {:induction false} MergeRunFrame(ms: seq<Record>, ps: seq<PeerRecord>)
    requires MergeRun(ms, ps)
    ensures var a, b := ms[0], ms[|ps|];
      && b.black == a.black && b.next4 == a.next4 && b.next6 == a.next6 && b.preferV6 == a.preferV6
      && b.ewma4 == a.ewma4 && b.ewma6 == a.ewma6 && b.ipLatency == a.ipLatency
  {
    if ps != [] {
      var n := |ps| - 1;
      MergeRunFrame(ms[..n + 1], ps[..n]);
      assert IsMerge(ms[n], ps[n], ms[n + 1]);
    }
  }

  lemma NamedSnoc(qs: seq<PeerRecord>, p: PeerRecord)
    ensures Named4(qs + [p]) == Named4(qs) + Elements(p.v4)
    ensures Named6(qs + [p]) == Named6(qs) + Elements(p.v6)
  {
    var ps := qs + [p];
    assert ps[|qs|] == p;
    assert forall i :: 0 <= i < |qs| ==> ps[i] == qs[i];
  }

  /** Merging never removes a candidate or a whitelist entry. */
  lemma MergeInflates(a: Record, p: PeerRecord, b: Record)
    requires IsMerge(a, p, b)
    ensures Elements(a.v4) + Elements(p.v4) <= Elements(b.v4)
    ensures Elements(a.v6) + Elements(p.v6) <= Elements(b.v6)
    ensures a.white + Elements(p.v4) + Elements(p.v6) == b.white
    ensures a.black == b.black && a.next4 == b.next4 && a.ipLatency == b.ipLatency
  {
  }

  /** Order, grouping into rounds and repetition of merges do not matter: only which lists were merged. */
  lemma MergeOrderIrrelevant(ms: seq<Record>, ps: seq<PeerRecord>, ns: seq<Record>, qs: seq<PeerRecord>)
    requires MergeRun(ms, ps) && MergeRun(ns, qs)
    requires ms[0] == ns[0]
    requires Elements(ps) == Elements(qs)
    ensures Abs(ms[|ps|]) == Abs(ns[|qs|])
  {
    if ps == [] {
      assert qs == [] by {
        ElementsEmpty(ps);
        ElementsEmpty(qs);
      }
    } else {
      ElementsEmpty(ps);
      ElementsEmpty(qs);
      MergeRunIsJoin(ms, ps);
      MergeRunIsJoin(ns, qs);
      NamedSame(ps, qs);
      NamedSame(qs, ps);
    }
  }

  lemma NamedSame(ps: seq<PeerRecord>, qs: seq<PeerRecord>)
    requires Elements(ps) <= Elements(qs)
    ensures Named4(ps) <= Named4(qs) && Named6(ps) <= Named6(qs)
  {
    forall i | 0 <= i < |ps|
      ensures exists j :: 0 <= j < |qs| && qs[j] == ps[i]
    {
      assert ps[i] in Elements(ps);
    }
  }

  /** Merging two lists one after the other equals merging their concatenation in one go. */
  lemma MergeGroups(a: Record, p: PeerRecord, b: Record, q: PeerRecord, c: Record, c': Record)
    requires IsMerge(a, p, b) && IsMerge(b, q, c)
    requires IsMerge(a, PeerRecord(p.v4 + q.v4, p.v6 + q.v6), c')
    ensures Abs(c) == Abs(c')
  {
    MergeIsJoin(a, p, b);
    MergeIsJoin(b, q, c);
    MergeIsJoin(a, PeerRecord(p.v4 + q.v4, p.v6 + q.v6), c');
    ElementsConcat(p.v4, q.v4);
    ElementsConcat(p.v6, q.v6);
    JoinTwice(Abs(a), Elements(p.v4), Elements(p.v6), Elements(q.v4), Elements(q.v6));
  }

  /**
   * Merging is meant to leave the black and white lists alone. The blacklist it does; the whitelist exactly when
   * every address the peer names is whitelisted already.
   */
  lemma MergeIgnoresListsExactly(a: Record, p: PeerRecord, b: Record)
    requires IsMerge(a, p, b)
    ensures b.black == a.black
    ensures b.white == a.white <==> Elements(p.v4) + Elements(p.v6) <= a.white
  {
  }

  /** After a merge no address is both white and black exactly when none was and the peer names no blacklisted one. */
  lemma MergeKeepsDisjointExactly(a: Record, p: PeerRecord, b: Record)
    requires IsMerge(a, p, b)
    ensures b.black !! b.white <==> a.black !! a.white && a.black !! Elements(p.v4) + Elements(p.v6)
  {
  }

  /** Merging may whitelist an address that stays blacklisted: the two sets need not be disjoint. */
  lemma MergeMayWhitelistBlacklisted(x: Ip) returns (a: Record, p: PeerRecord, b: Record)
    requires x.V4?
    ensures RecordInv(a) && IsMerge(a, p, b) && x in b.black && x in b.white
  {
    a := EMPTY.(v4 := [x], black := {x});
    p := PeerRecord([x], []);
    b := a.(white := {x});
    ElementsEmpty<Ip>([]);
    ElementsSnoc([], x);
    assert [] + [x] == [x];
    assert b.v4[..1] == [x] && b.v6[..0] == [];
    assert Fam4({x}) == {x} && Fam6({x}) == {};
    assert ListsThen(b.v4, {x}, {});
  }

  // ---------------------------------------------------------------- views through shared backing arrays

  /** What a list header taken before an in-place rewrite reads afterwards. */
  function AliasView(prev: seq<Ip>, new_: seq<Ip>): (view: seq<Ip>)
    ensures |view| == |prev|
  {
    if |prev| <= |new_| then new_[..|prev|] else new_ + prev[|new_|..]
  }

  /** What the headers of a's lists read once a has become b in place. */
  function Views(a: Record, b: Record): PeerRecord {
    PeerRecord(AliasView(a.v4, b.v4), AliasView(a.v6, b.v6))
  }
}
