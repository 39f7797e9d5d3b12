/** The responder side of peer traffic: the exchange handler and the known-peer set. */
module PeerServers {
  import opened Lists
  import opened Records
  import opened PoolSpec
  import opened Exchanges
  import opened DnsPools

  type Address = string

  class PeerServer {
    const pool: DnsPool?
    var knownPeers: set<Address>

    constructor (pool: DnsPool?)
      ensures this.pool == pool && knownPeers == {}
    {
      this.pool := pool;
      knownPeers := {};
    }

    /** Takes the headers of all local lists, merges the request in place, then answers what the headers read. */
    method ExchangeDNS(req: map<Domain, PeerRecord>, clock: int) returns (reply: map<Domain, PeerRecord>)
      modifies if pool == null then {} else {pool}
      ensures pool == null ==> reply == map[]
      ensures pool != null ==>
        && MergeAll(old(pool.records), req, pool.records)
        && reply == ReplyOf(old(pool.records), req, pool.records)
        && reply.Keys == old(pool.records).Keys
        && (forall d :: d in reply ==> Answers(old(pool.records)[d], pool.records[d], d in req, reply[d]))
        && pool.reserved == old(pool.reserved) && pool.lastRequest == old(pool.lastRequest)
        && pool.file == old(pool.file)
        && (req != map[] || old(pool.timerArmed) ==> pool.timerArmed)
    {
      hide MergeAll, Views, IsMerge, Answers;
      if pool == null { return map[]; }
      var before := pool.GetAllRecords();
      var views := pool.MergeFromPeer(req, clock);
      MergeKeepsKeys(before, req, pool.records);
      reply := map d | d in before :: if d in req then views[d] else PeerRecord(before[d].v4, before[d].v6);
      forall d | d in reply ensures Answers(before[d], pool.records[d], d in req, reply[d]) {
        ReplyAt(before, req, pool.records, d);
      }
    }

    method AddKnownPeer(a: Address)
      modifies this`knownPeers
      ensures knownPeers == if a == "" then old(knownPeers) else old(knownPeers) + {a}
    {
      if a == "" { return; }
      if a !in knownPeers { knownPeers := knownPeers + {a}; }
    }

    /** The answer says whether the address was accepted and whether it was new. */
    method ReportNode(a: Address) returns (accepted: bool, isNew: bool)
      modifies this`knownPeers
      ensures accepted <==> a != ""
      ensures isNew <==> a != "" && a !in old(knownPeers)
      ensures knownPeers == if a == "" then old(knownPeers) else old(knownPeers) + {a}
    {
      if a == "" { return false, false; }
      isNew := a !in knownPeers;
      if isNew { knownPeers := knownPeers + {a}; }
      accepted := true;
    }

    /** Own address, seeds and known peers, each once and never empty; own address and seeds become known. */
    method GetPeers(myAddr: Address, seeds: seq<Address>) returns (peers: seq<Address>)
      modifies this`knownPeers
      ensures NoDup(peers)
      ensures Elements(peers) == (old(knownPeers) + Elements(seeds) + {myAddr}) - {""}
      ensures old(knownPeers) <= knownPeers && Elements(peers) == knownPeers - {""}
    {
      var uniq: set<Address> := {};
      if myAddr != "" {
        uniq := uniq + {myAddr};
        knownPeers := knownPeers + {myAddr};
      }
      ElementsEmpty(seeds[..0]);
      for i := 0 to |seeds|
        invariant uniq == (Elements(seeds[..i]) + {myAddr}) - {""}
        invariant knownPeers == old(knownPeers) + uniq
      {
        assert seeds[..i + 1] == seeds[..i] + [seeds[i]];
        ElementsSnoc(seeds[..i], seeds[i]);
        if seeds[i] != "" {
          uniq := uniq + {seeds[i]};
          knownPeers := knownPeers + {seeds[i]};
        }
      }
      assert seeds[..|seeds|] == seeds;
      uniq := uniq + (knownPeers - {""});
      peers := ListInAnyOrder(uniq);
    }
  }

  /**
   * The requester's side of one sync: push all non-empty records, and, if the answer arrives, merge it and save.
   * With the answer delivered this is one complete exchange between the two pools.
   */
  method ExchangeWith(local: DnsPool, remote: PeerServer, clock: int, delivered: bool)
    requires remote.pool != null && remote.pool != local
    modifies local, remote.pool
    ensures MergeAll(old(remote.pool.records), RequestOf(old(local.records)), remote.pool.records)
    ensures delivered ==> Completes(old(local.records), old(remote.pool.records), local.records, remote.pool.records)
    ensures !delivered ==> local.records == old(local.records)
    ensures delivered && old(remote.pool.records) != map[] ==> FileAgrees(local.file, local.records)
  {
    hide MergeAll, IsMerge, Views, Answers;
    var all := local.GetAllRecords();
    var theirs := remote.pool.GetAllRecords();
    var request := map d | d in all && (|all[d].v4| > 0 || |all[d].v6| > 0) :: PeerRecord(all[d].v4, all[d].v6);
    assert request == RequestOf(all);
    var reply := remote.ExchangeDNS(request, clock);
    if delivered {
      MergeKeepsKeys(theirs, request, remote.pool.records);
      if |reply| > 0 {
        var _ := local.MergeFromPeer(reply, clock);
        local.PersistNow();
      } else {
        assert reply == map[];
        MergeNothing(all);
        assert theirs == map[] by { assert theirs.Keys == reply.Keys == {}; }
      }
    }
  }

  lemma MergeKeepsKeys(m: map<Domain, Record>, req: map<Domain, PeerRecord>, m': map<Domain, Record>)
    requires MergeAll(m, req, m')
    ensures m.Keys <= m'.Keys
  {
    hide IsMerge;
  }
}
