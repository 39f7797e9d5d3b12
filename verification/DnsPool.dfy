/** The DNS pool object: the methods that update the record map, the reservation queues and the save timer. */
module DnsPools {
  import opened Lists
  import opened Records
  import opened Rotation
  import opened PoolSpec
  import opened Slices

  /** The file holds exactly the records in memory; no file is the same as no records. */
  ghost predicate FileAgrees(file: Option<map<Domain, Record>>, records: map<Domain, Record>) {
    if file.Some? then file.value == records else records == map[]
  }

  /** A loaded file, every record's whitelist folded into its lists in map-iteration order. */
  ghost predicate IsLoad(file: map<Domain, Record>, records: map<Domain, Record>) {
    && records.Keys == file.Keys
    && (forall d :: d in file ==> IsFold(file[d], records[d]))
  }

  /** Loading what was written gives the same records back, whenever they satisfied the invariant. */
  lemma LoadRoundTrip(file: map<Domain, Record>, records: map<Domain, Record>)
    requires IsLoad(file, records) && AllInv(file)
    ensures records == file
  {
    forall d | d in file ensures records[d] == file[d] {
      FoldIsNoop(file[d], records[d]);
    }
  }

  /** Any file loads to a normal form that keeps all its lists as prefixes; loading that again changes nothing. */
  lemma LoadNormalises(file: map<Domain, Record>, once: map<Domain, Record>, twice: map<Domain, Record>)
    requires IsLoad(file, once) && IsLoad(once, twice)
    ensures twice == once
    ensures forall d :: d in file ==> file[d].v4 <= once[d].v4 && file[d].v6 <= once[d].v6
    ensures forall d :: d in file ==>
      once[d] == file[d].(v4 := once[d].v4, v6 := once[d].v6)
    ensures forall d :: d in file ==>
      && Elements(once[d].v4) == Elements(file[d].v4) + Fam4(file[d].white)
      && Elements(once[d].v6) == Elements(file[d].v6) + Fam6(file[d].white)
  {
    forall d | d in file ensures
      && Elements(once[d].v4) == Elements(file[d].v4) + Fam4(file[d].white)
      && Elements(once[d].v6) == Elements(file[d].v6) + Fam6(file[d].white)
    {
      FoldNormalises(file[d], once[d]);
    }
    forall d | d in file ensures twice[d] == once[d] {
      FoldTwiceIsOnce(file[d], once[d], twice[d]);
    }
  }

  method AppendMissing(base: seq<Ip>, xs: seq<Ip>) returns (list: seq<Ip>)
    ensures list == AppendNew(base, xs)
  {
    list := base;
    var present := Elements(base);
    for i := 0 to |xs|
      invariant list == AppendNew(base, xs[..i])
      invariant present == Elements(list)
    {
      assert xs[..i + 1][..i] == xs[..i];
      ElementsSnoc(list, xs[i]);
      if xs[i] !in present {
        list := list + [xs[i]];
        present := present + {xs[i]};
      }
    }
    assert xs[..|xs|] == xs;
  }

  /** Appends the members of xs that are missing from list, in map-iteration order. */
  method AppendMissingSet(list: seq<Ip>, xs: set<Ip>) returns (longer: seq<Ip>)
    ensures Extends(list, longer, xs - Elements(list))
  {
    var added: seq<Ip> := [];
    var missing := xs - Elements(list);
    var rest := missing;
    ElementsEmpty(added);
    while rest != {}
      invariant rest <= missing
      invariant NoDup(added) && Elements(added) == missing - rest
      decreases |rest|
    {
      var x :| x in rest;
      GrowByMember([], added, missing, rest, x);
      added := added + [x];
      rest := rest - {x};
    }
    longer := list + added;
    assert longer[|list|..] == added;
  }

  method FoldWhitelist(r: Record) returns (folded: Record)
    ensures IsFold(r, folded)
  {
    var v4 := AppendMissingSet(r.v4, Fam4(r.white));
    var v6 := AppendMissingSet(r.v6, Fam6(r.white));
    folded := r.(v4 := v4, v6 := v6);
  }

  method CollectUsable(xs: seq<Ip>, black: set<Ip>, isV6: bool) returns (picks: seq<Pick>)
    ensures picks == Usable(xs, black, isV6)
  {
    picks := [];
    for i := 0 to |xs|
      invariant picks == Usable(xs[..i], black, isV6)
    {
      assert xs[..i + 1][..i] == xs[..i];
      if xs[i] !in black {
        picks := picks + [Pick(xs[i], isV6)];
      }
    }
    assert xs[..|xs|] == xs;
  }

  method CollectAvailable(r: Record, env: Env) returns (picks: seq<Pick>)
    ensures picks == Available(r, env)
  {
    picks := [];
    if env.allowV6 && (env.preferV6 || !env.allowV4) {
      var first := CollectUsable(r.v6, r.black, true);
      picks := first;
      if env.allowV4 {
        var second := CollectUsable(r.v4, r.black, false);
        picks := picks + second;
      }
    } else {
      if env.allowV4 {
        var first := CollectUsable(r.v4, r.black, false);
        picks := first;
      }
      if env.allowV6 {
        var second := CollectUsable(r.v6, r.black, true);
        picks := picks + second;
      }
    }
  }

  /** The allocation loop of a batch: count addresses around the ring from index start on. */
  method TakeFrom(available: seq<Pick>, start: nat, count: nat) returns (picks: seq<Pick>)
    requires available != []
    ensures picks == Cycle(available, start, count)
  {
    picks := [];
    for i := 0 to count
      invariant picks == Cycle(available, start, i)
    {
      picks := picks + [available[(start + i) % |available|]];
      assert picks[i] == At(available, start + i);
    }
  }

  method MergeRecord(r: Record, p: PeerRecord, clock: int) returns (merged: Record, view: PeerRecord)
    ensures IsMerge(r, p, merged) && view == Views(r, merged)
    ensures merged.updatedAt == clock
  {
    var white := r.white + Elements(p.v4) + Elements(p.v6);
    var v4, view4 := RebuildInPlace(r.v4, Elements(r.v4) + Elements(p.v4), Fam4(white));
    var v6, view6 := RebuildInPlace(r.v6, Elements(r.v6) + Elements(p.v6), Fam6(white));
    merged := r.(v4 := v4, v6 := v6, white := white, updatedAt := clock);
    view := PeerRecord(view4, view6);
  }

  /** Of a merge of peers into before, exactly the domains of views are done. */
  ghost predicate MergePart(before: map<Domain, Record>, peers: map<Domain, PeerRecord>,
                            after: map<Domain, Record>, views: map<Domain, PeerRecord>)
  {
    && views.Keys <= peers.Keys
    && after.Keys == before.Keys + views.Keys
    && (forall d :: d in before && d !in views ==> after[d] == before[d])
    && (forall d :: d in views ==> IsMerge(Get(before, d), peers[d], after[d]))
    && (forall d :: d in views ==> views[d] == Views(Get(before, d), after[d]))
  }

  lemma MergePartGrows(before: map<Domain, Record>, peers: map<Domain, PeerRecord>,
                       after: map<Domain, Record>, views: map<Domain, PeerRecord>, d: Domain, merged: Record)
    requires MergePart(before, peers, after, views)
    requires d in peers && d !in views && IsMerge(Get(before, d), peers[d], merged)
    ensures MergePart(before, peers, after[d := merged], views[d := Views(Get(before, d), merged)])
  {
    hide IsMerge, Views;
  }

  lemma MergePartStart(before: map<Domain, Record>, peers: map<Domain, PeerRecord>)
    ensures MergePart(before, peers, before, map[])
  {
  }

  lemma MergePartRest(before: map<Domain, Record>, peers: map<Domain, PeerRecord>,
                      after: map<Domain, Record>, views: map<Domain, PeerRecord>, d: Domain)
    requires MergePart(before, peers, after, views) && d !in views
    ensures Get(after, d) == Get(before, d)
  {
    hide IsMerge, Views;
  }

  lemma MergePartDone(before: map<Domain, Record>, peers: map<Domain, PeerRecord>,
                      after: map<Domain, Record>, views: map<Domain, PeerRecord>)
    requires MergePart(before, peers, after, views) && views.Keys == peers.Keys
    ensures MergeAll(before, peers, after)
    ensures forall d :: d in peers ==> views[d] == Views(Get(before, d), after[d])
    ensures peers != map[] ==> after != map[]
  {
    hide IsMerge, Views;
    if after == map[] {
      assert peers.Keys == {};
    }
  }

  lemma MergeNothing(m: map<Domain, Record>)
    ensures MergeAll(m, map[], m)
  {
  }

  /** Merges the peers' domains one by one, in map-iteration order. */
  method MergeLoop(before: map<Domain, Record>, peers: map<Domain, PeerRecord>, clock: int)
    returns (after: map<Domain, Record>, views: map<Domain, PeerRecord>)
    ensures MergeAll(before, peers, after) && views.Keys == peers.Keys
    ensures forall d :: d in peers ==> views[d] == Views(Get(before, d), after[d])
    ensures forall d :: d in peers ==> after[d].updatedAt == clock
    ensures peers != map[] ==> after != map[]
  {
    after, views := before, map[];
    hide MergePart, MergeAll, IsMerge, Views, AliasView;
    MergePartStart(before, peers);
    var rest := peers.Keys;
    while rest != {}
      invariant rest <= peers.Keys && views.Keys == peers.Keys - rest
      invariant MergePart(before, peers, after, views)
      invariant forall d :: d in views ==> d in after && after[d].updatedAt == clock
      decreases |rest|
    {
      var d :| d in rest;
      MergePartRest(before, peers, after, views, d);
      var merged, view := MergeRecord(Get(after, d), peers[d], clock);
      MergePartGrows(before, peers, after, views, d, merged);
      after := after[d := merged];
      views := views[d := view];
      rest := rest - {d};
    }
    MergePartDone(before, peers, after, views);
  }

  method Contains(xs: seq<Ip>, x: Ip) returns (found: bool)
    ensures found <==> x in xs
  {
    found := false;
    for i := 0 to |xs|
      invariant x !in xs[..i]
    {
      if xs[i] == x { return true; }
    }
  }

  class DnsPool {
    var records: map<Domain, Record>
    var reserved: map<Domain, seq<Reserved>>
    var lastRequest: map<Domain, int>
    var timerArmed: bool
    var file: Option<map<Domain, Record>>

    ghost function State(): Pool
      reads this
    {
      Pool(records, reserved, lastRequest)
    }

    /** Nothing is lost: what the file lacks, an armed timer will write. */
    ghost predicate Synced()
      reads this
    {
      timerArmed || FileAgrees(file, records)
    }

    /** An empty memory never hides a fuller file, so skipping an empty save is harmless. */
    ghost predicate EmptyIsHarmless()
      reads this
    {
      records == map[] ==> FileAgrees(file, records)
    }

    constructor (onDisk: Option<map<Domain, Record>>)
      ensures file == onDisk && !timerArmed
      ensures State() == NEW_POOL.(records := records)
      ensures if onDisk.Some? then IsLoad(onDisk.value, records) else records == map[]
      ensures EmptyIsHarmless()
      ensures onDisk.Some? && AllInv(onDisk.value) ==> Synced() && AllInv(records)
      ensures onDisk.None? ==> Synced() && AllInv(records)
    {
      records, reserved, lastRequest := map[], map[], map[];
      timerArmed := false;
      file := onDisk;
      new;
      if onDisk.Some? {
        LoadFromDisk();
        if AllInv(onDisk.value) { LoadRoundTrip(onDisk.value, records); }
        if records == map[] { assert onDisk.value.Keys == {}; }
      }
    }

    method LoadFromDisk()
      requires file.Some?
      modifies this`records
      ensures IsLoad(file.value, records)
    {
      var m := file.value;
      var done: map<Domain, Record> := map[];
      var rest := m.Keys;
      while rest != {}
        invariant rest <= m.Keys && done.Keys == m.Keys - rest
        invariant forall d :: d in done ==> IsFold(m[d], done[d])
        decreases |rest|
      {
        var d :| d in rest;
        var folded := FoldWhitelist(m[d]);
        done := done[d := folded];
        rest := rest - {d};
      }
      records := done;
    }

    method Persist()
      modifies this`timerArmed
      ensures timerArmed
    {
      timerArmed := true;
    }

    method PersistNow()
      modifies this`file
      ensures file == if records == map[] then old(file) else Some(records)
      ensures old(EmptyIsHarmless()) ==> FileAgrees(file, records)
    {
      if |records| == 0 {
        return;
      }
      file := Some(records);
    }

    method TimerFires()
      requires timerArmed
      modifies this`timerArmed, this`file
      ensures !timerArmed
      ensures old(EmptyIsHarmless()) ==> FileAgrees(file, records)
    {
      timerArmed := false;
      PersistNow();
    }

    method Close()
      modifies this`timerArmed, this`file
      ensures !timerArmed
      ensures old(EmptyIsHarmless()) ==> FileAgrees(file, records)
    {
      timerArmed := false;
      PersistNow();
    }

    method Save(d: Domain, found: Record)
      modifies this`records, this`timerArmed
      ensures Step(old(State()), Event.Save(d, found), State())
      ensures timerArmed && records != map[]
    {
      var before := Get(records, d);
      var v4, v6 := found.v4, found.v6;
      if |before.v4| != 0 { v4 := AppendMissing(before.v4, found.v4); }
      if |before.v6| != 0 { v6 := AppendMissing(before.v6, found.v6); }
      records := records[d := before.(v4 := v4, v6 := v6, updatedAt := found.updatedAt,
                                      preferV6 := found.preferV6,
                                      next4 := BoundIndex(found.next4, before.next4, |v4|),
                                      next6 := BoundIndex(found.next6, before.next6, |v6|))];
      assert d in records;
      Persist();
    }

    /**
     * Merges a peer's lists. The lists are rewritten in their own arrays, so a header taken before the call
     * reads `views` after it.
     */
    method MergeFromPeer(peers: map<Domain, PeerRecord>, clock: int) returns (views: map<Domain, PeerRecord>)
      modifies this`records, this`timerArmed
      ensures Step(old(State()), Event.Merge(peers), State())
      ensures views.Keys == peers.Keys
      ensures forall d :: d in peers ==> views[d] == Views(Get(old(records), d), records[d])
      ensures forall d :: d in peers ==> records[d].updatedAt == clock
      ensures timerArmed || (!old(timerArmed) && peers == map[])
      ensures peers == map[] ==> records == old(records)
      ensures peers != map[] ==> records != map[]
    {
      hide MergeAll, Views, AliasView, BatchStep, NextStep, Saved, Reported, Timed;
      views := map[];
      if |peers| == 0 {
        assert peers == map[] by { assert peers.Keys == {}; }
        MergeNothing(records);
        return;
      }
      records, views := MergeLoop(records, peers, clock);
      Persist();
    }

    /** Shallow copies of all records; the lists inside still share their arrays with the live ones. */
    method GetAllRecords() returns (all: map<Domain, Record>)
      ensures all == records
    {
      all := records;
    }

    /** Makes sure d has a record, resolving it if it has none; false when the resolver finds nothing. */
    method EnsureRecord(d: Domain, ans: Answer) returns (ok: bool)
      modifies this`records, this`timerArmed
      ensures ok <==> d in old(records) || !ans.Fails()
      ensures !ok || d in old(records) ==> records == old(records) && timerArmed == old(timerArmed)
      ensures ok && d !in old(records) ==> records == old(records)[d := Resolved(old(records), d, ans)] && timerArmed
    {
      ok := true;
      if d !in records {
        if ans.Fails() { return false; }
        Save(d, ans.Found());
      }
    }

    method NextIPs(d: Domain, count: int, env: Env, ans: Answer) returns (out: Option<seq<Pick>>)
      modifies this`records, this`timerArmed
      ensures Step(old(State()), Event.Batch(d, count, env, ans, out), State())
      ensures out.Some? || old(timerArmed) ==> timerArmed
      ensures old(Synced() && AllInv(records)) && NoDup(ans.v4) && NoDup(ans.v6) ==> Synced()
      ensures old(records) != map[] ==> records != map[]
      ensures out.Some? ==> |out.value| == count
    {
      hide IsFold, Available, RecordInv, AllInv, NoDup, Cycle, BatchStep, NextStep, MergeAll, Saved, Reported, Timed;
      ghost var before := records;
      BatchFails(records, d, count, env, ans);
      if count <= 0 { return None; }
      var ok := EnsureRecord(d, ans);
      if !ok { return None; }
      var folded := FoldWhitelist(records[d]);
      BatchTakes(before, d, count, env, ans, folded);
      var available := CollectAvailable(folded, env);
      if |available| == 0 {
        records := records[d := folded];
        assert records == before[d := folded];
        NoPickNothingUnsaved(before, d, count, env, ans, records);
        return None;
      }
      var picks := TakeFrom(available, folded.next4, count);
      records := records[d := folded.(next4 := (folded.next4 + count) % |available|)];
      assert records == before[d := records[d]];
      Persist();
      out := Some(picks);
    }

    lemma BatchFails(m: map<Domain, Record>, d: Domain, count: int, env: Env, ans: Answer)
      ensures count <= 0 || (d !in m && ans.Fails()) ==> BatchStep(m, d, count, env, ans, m, None)
    {
    }

    /** The batch transition, from the record with its whitelist folded in. */
    lemma BatchTakes(m: map<Domain, Record>, d: Domain, count: int, env: Env, ans: Answer, folded: Record)
      requires count > 0 && (d in m || !ans.Fails()) && IsFold(Resolved(m, d, ans), folded)
      ensures var a, n := Available(folded, env), folded.next4;
        if a == [] then BatchStep(m, d, count, env, ans, m[d := folded], None)
        else BatchStep(m, d, count, env, ans, m[d := folded.(next4 := (n + count) % |a|)], Some(Cycle(a, n, count)))
    {
      var base, a := Resolved(m, d, ans), Available(folded, env);
      assert folded == base.(v4 := folded.v4, v6 := folded.v6);
      hide IsFold, Available, Cycle, Resolved;
      assert folded.(next4 := base.next4) == folded;
      if a != [] {
        assert folded.(next4 := (folded.next4 + count) % |a|).(next4 := base.next4) == folded;
      }
    }

    lemma NoPickNothingUnsaved(before: map<Domain, Record>, d: Domain, count: int, env: Env, ans: Answer,
                               after: map<Domain, Record>)
      requires BatchStep(before, d, count, env, ans, after, None)
      ensures AllInv(before) && NoDup(ans.v4) && NoDup(ans.v6) && d in before ==> after == before
    {
      if AllInv(before) && NoDup(ans.v4) && NoDup(ans.v6) {
        BatchMovesIndexOnly(before, d, count, env, ans, after, None);
      }
    }

    /** The tail of NextIP: one strict round-robin pick. */
    method PickOne(d: Domain, env: Env, ans: Answer) returns (out: Option<Pick>)
      modifies this`records, this`timerArmed
      ensures SingleStep(old(records), d, env, ans, records, out)
      ensures out.Some? || old(timerArmed) ==> timerArmed
      ensures old(Synced() && AllInv(records)) && NoDup(ans.v4) && NoDup(ans.v6) ==> Synced()
      ensures old(records) != map[] ==> records != map[]
    {
      hide IsFold, Available, RecordInv, AllInv, Saved, NoDup;
      ghost var before := records;
      var ok := EnsureRecord(d, ans);
      if !ok { return None; }
      var folded := FoldWhitelist(records[d]);
      var available := CollectAvailable(folded, env);
      if |available| == 0 {
        records := records[d := folded];
        if AllInv(before) && NoDup(ans.v4) && NoDup(ans.v6) {
          SingleMovesIndexOnly(before, d, env, ans, records, None);
        }
        return None;
      }
      var selected := available[folded.next4 % |available|];
      records := records[d := folded.(next4 := (folded.next4 + 1) % |available|)];
      Persist();
      out := Some(selected);
    }

    /** Drops expired entries of d's queue, then serves its head if anything is left. */
    method TakeReserved(d: Domain, now: int) returns (out: Option<Pick>)
      modifies this`reserved
      ensures var live := Live(Queue(old(reserved), d), now);
        if live != [] then out == Some(live[0].pick) && reserved == old(reserved)[d := live[1..]]
        else out == None &&
             reserved == if Queue(old(reserved), d) != [] then old(reserved) - {d} else old(reserved)
    {
      out := None;
      if d in reserved && |reserved[d]| > 0 {
        var queue := reserved[d];
        var valid: seq<Reserved> := [];
        for i := 0 to |queue|
          invariant valid == Live(queue[..i], now)
        {
          assert queue[..i + 1][..i] == queue[..i];
          if now - queue[i].at < RESERVED_TTL {
            valid := valid + [queue[i]];
          }
        }
        assert queue[..|queue|] == queue;
        if |valid| > 0 {
          reserved := reserved[d := valid[1..]];
          return Some(valid[0].pick);
        }
        reserved := reserved - {d};
      }
    }

    method NextIP(rq: Request) returns (out: Option<Pick>, ghost via: Via)
      modifies this`records, this`timerArmed, this`reserved, this`lastRequest
      ensures Step(old(State()), Event.Next(rq, out, via), State())
      ensures old(timerArmed) ==> timerArmed
      ensures old(Synced() && AllInv(records)) && GoodInput(Event.Next(rq, out, via)) ==> Synced()
      ensures old(records) != map[] ==> records != map[]
    {
      hide BatchStep, SingleStep, MergeAll, Live, Queue, Stamp, RecordInv, AllInv, NoDup, FileAgrees, Saved, Reported, Timed;
      var d := rq.domain;
      out := TakeReserved(d, rq.now);
      if out.Some? {
        return out, FromReserve;
      }
      var cut := d !in lastRequest || rq.now - lastRequest[d] < CONCURRENT_WINDOW;
      lastRequest := lastRequest[d := rq.now];
      via := Lone;
      if cut {
        ghost var before := records;
        var batch := NextIPs(d, BATCH_SIZE, rq.env1, rq.ans1);
        if batch.Some? && |batch.value| > 0 {
          reserved := reserved[d := Stamp(batch.value, rq.now)];
          return Some(batch.value[0]), CutBatch(batch.value);
        }
        via := FailedBatch(records);
        if AllInv(before) && NoDup(rq.ans1.v4) && NoDup(rq.ans1.v6) {
          BatchMovesIndexOnly(before, d, BATCH_SIZE, rq.env1, rq.ans1, records, None);
        }
      }
      out := PickOne(d, rq.env2, rq.ans2);
    }

    method ReportResult(d: Domain, ip: Ip, status: int)
      modifies this`records, this`timerArmed
      ensures Step(old(State()), Event.Report(d, ip, status), State())
      ensures timerArmed || (!old(timerArmed) && records == old(records))
      ensures old(records) != map[] ==> records != map[]
    {
      if ip.text == "" || d == "" { return; }
      var r := Get(records, d);
      if ip.V6? {
        var present := Contains(r.v6, ip);
        if !present { r := r.(v6 := r.v6 + [ip]); }
      } else {
        var present := Contains(r.v4, ip);
        if !present { r := r.(v4 := r.v4 + [ip]); }
      }
      if status == 403 {
        r := r.(black := r.black + {ip}, white := r.white - {ip});
      } else if status == 200 {
        r := r.(black := r.black - {ip}, white := r.white + {ip});
      }
      records := records[d := r];
      Persist();
    }

    method ReportLatency(d: Domain, ip: Ip, ms: int)
      modifies this`records, this`timerArmed
      ensures Step(old(State()), Event.Latency(d, ip, ms), State())
      ensures timerArmed || (!old(timerArmed) && records == old(records))
      ensures old(records) != map[] ==> records != map[]
    {
      if ip.text == "" || d == "" || ms <= 0 { return; }
      var r := Get(records, d);
      var x := ms as real;
      if ip !in r.ipLatency || r.ipLatency[ip] == 0.0 {
        r := r.(ipLatency := r.ipLatency[ip := x]);
      } else {
        r := r.(ipLatency := r.ipLatency[ip := 0.3 * x + 0.7 * r.ipLatency[ip]]);
      }
      if ip.V6? {
        r := r.(ewma6 := if r.ewma6 == 0.0 then x else 0.3 * x + 0.7 * r.ewma6);
      } else {
        r := r.(ewma4 := if r.ewma4 == 0.0 then x else 0.3 * x + 0.7 * r.ewma4);
      }
      records := records[d := r];
      Persist();
    }
  }
}
