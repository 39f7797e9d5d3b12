/** Runs of the sync manager read back from their actions: what was started, heard, cached and decided, and that it ends. */
module PeerHistory {
  import opened Lists
  import opened PeerSync

  // ---------------------------------------------------------------- which activations exist

  function PeersOf(acts: seq<Activation>): (r: seq<Address>)
    ensures |r| == |acts|
  {
    seq(|acts|, i requires 0 <= i < |acts| => acts[i].peer)
  }

  /** The peers of the activations started from outside by the first i actions. */
  function SpawnedFromOutside(acts: seq<Action>, i: nat): seq<Address>
    requires i <= |acts|
  {
    if i == 0 then [] else
      SpawnedFromOutside(acts, i - 1) + if acts[i - 1].Spawn? then [acts[i - 1].peer] else []
  }

  lemma PeersOfFresh(peers: seq<Address>)
    ensures PeersOf(Fresh(peers)) == peers
  {
  }

  lemma PeersOfConcat(a: seq<Activation>, b: seq<Activation>)
    ensures PeersOf(a + b) == PeersOf(a) + PeersOf(b)
  {
  }

  lemma PeersOfMoved(a: seq<Activation>, i: nat, phase: Phase)
    requires i < |a|
    ensures PeersOf(a[i := a[i].(phase := phase)]) == PeersOf(a)
  {
  }

  lemma StepStarts(s: System, act: Action)
    requires Enabled(s, act)
    ensures var t := Next(s, act); var more := t.spawned[|s.spawned|..];
      && s.spawned <= t.spawned
      && PeersOf(t.acts) == PeersOf(s.acts) + (if act.Spawn? then [act.peer] else more)
      && (act.Spawn? ==> more == [])
      && (more == if act.Tell? then News(s.shared.known, Actor(s, act).peer, Actor(s, act).phase.peers) else [])
  {
    hide PeersOf, Fresh, News, RetryDelay, NextBackoff;
    match act
    case Spawn(peer) =>
      PeersOfConcat(s.acts, [Activation(peer, Starting)]);
      PeersOfOne(peer);
    case Tell(i) =>
      var me := s.acts[i];
      var news := News(s.shared.known, me.peer, me.phase.peers);
      PeersOfMoved(s.acts, i, Exchanging);
      PeersOfConcat(s.acts[i := me.(phase := Exchanging)], Fresh(news));
      PeersOfFresh(news);
    case _ =>
      PeersOfMoved(s.acts, act.i, Next(s, act).acts[act.i].phase);
  }

  lemma PeersOfOne(peer: Address)
    ensures PeersOf([Activation(peer, Starting)]) == [peer]
  {
  }

  /** In every reachable state there is one activation for each start from outside and one for each address discovery spawned. */
  lemma {:induction false} StartedExactly(s: seq<System>, acts: seq<Action>, known: set<Address>, i: nat)
    requires Run(s, acts) && Initial(s[0], known) && i <= |acts|
    ensures multiset(PeersOf(s[i].acts)) == multiset(SpawnedFromOutside(acts, i)) + multiset(s[i].spawned)
  {
    hide Next, Enabled, PeersOf;
    if i == 0 {
      assert PeersOf(s[0].acts) == [];
    } else {
      var act := acts[i - 1];
      assert |s| == |acts| + 1 && Enabled(s[i - 1], act) && s[i] == Next(s[i - 1], act);
      var outside := if act.Spawn? then [act.peer] else [];
      assert SpawnedFromOutside(acts, i) == SpawnedFromOutside(acts, i - 1) + outside;
      hide Run, SpawnedFromOutside;
      StartedExactly(s, acts, known, i - 1);
      StepStarts(s[i - 1], act);
      var more := s[i].spawned[|s[i - 1].spawned|..];
      assert s[i].spawned == s[i - 1].spawned + more;
      AddStarted(PeersOf(s[i - 1].acts), SpawnedFromOutside(acts, i - 1), s[i - 1].spawned, outside, more);
    }
  }

  lemma AddStarted(peers: seq<Address>, outside: seq<Address>, spawned: seq<Address>, one: seq<Address>, more: seq<Address>)
    requires multiset(peers) == multiset(outside) + multiset(spawned) && (one == [] || more == [])
    ensures multiset(peers + if one != [] then one else more) == multiset(outside + one) + multiset(spawned + more)
  {
  }

  // ---------------------------------------------------------------- what is known

  /** Some peer's answer named a, other than as itself, and was taken in before action i. */
  ghost predicate Heard(s: seq<System>, acts: seq<Action>, a: Address, i: nat)
    requires |s| == |acts| + 1 && i <= |acts|
  {
    exists k :: 0 <= k < i && Names(s[k], acts[k], a)
  }

  predicate Names(s: System, act: Action, a: Address) {
    act.Tell? && Actor(s, act).phase.Telling? && a in Actor(s, act).phase.peers && a != Actor(s, act).peer
  }

  lemma StepKnows(s: System, act: Action, a: Address)
    requires Enabled(s, act)
    ensures a in Next(s, act).shared.known <==> a in s.shared.known || Names(s, act, a)
    ensures var more := Next(s, act).spawned[|s.spawned|..];
      a in more <==> a !in s.shared.known && Names(s, act, a)
  {
    StepStarts(s, act);
    hide RetryDelay, NextBackoff;
    if act.Tell? {
      var me := Actor(s, act);
      var news := News(s.shared.known, me.peer, me.phase.peers);
      assert a in news <==> a in Elements(news);
      assert a in me.phase.peers <==> a in Elements(me.phase.peers);
    }
  }

  /** An address is known exactly if it was at the start or was heard of, and was spawned exactly if it is new. */
  lemma {:induction false} KnownExactly(s: seq<System>, acts: seq<Action>, known: set<Address>, a: Address, i: nat)
    requires Run(s, acts) && Initial(s[0], known) && i <= |acts|
    ensures a in s[i].shared.known <==> a in known || Heard(s, acts, a, i)
    ensures a in s[i].spawned <==> a !in known && Heard(s, acts, a, i)
  {
    hide Next, Enabled, Names;
    if i > 0 {
      KnownExactly(s, acts, known, a, i - 1);
      StepKnows(s[i - 1], acts[i - 1], a);
      StepStarts(s[i - 1], acts[i - 1]);
      var old_, new_ := s[i - 1].spawned, s[i].spawned;
      assert new_ == old_ + new_[|old_|..];
      assert Heard(s, acts, a, i) <==> Heard(s, acts, a, i - 1) || Names(s[i - 1], acts[i - 1], a);
    }
  }

  // ---------------------------------------------------------------- the client cache

  /** The client the latest Store for a before action i put into the cache. */
  function StoredFor(s: seq<System>, acts: seq<Action>, a: Address, i: nat): Option<ClientId>
    requires |s| == |acts| + 1 && i <= |acts|
  {
    if i == 0 then None else
      var me := Actor(s[i - 1], acts[i - 1]);
      if acts[i - 1].Store? && me.peer == a && me.phase.Storing? then Some(me.phase.client)
      else StoredFor(s, acts, a, i - 1)
  }

  lemma StepCaches(s: System, act: Action, a: Address)
    requires Enabled(s, act)
    ensures var me, t := Actor(s, act), Next(s, act);
      if act.Store? && me.peer == a && me.phase.Storing? then a in t.shared.clients && t.shared.clients[a] == me.phase.client
      else (a in t.shared.clients <==> a in s.shared.clients) &&
           (a in s.shared.clients ==> t.shared.clients[a] == s.shared.clients[a])
  {
    hide RetryDelay, NextBackoff, News;
  }

  /** The cache holds exactly what was stored. */
  lemma {:induction false} CachedExactly(s: seq<System>, acts: seq<Action>, known: set<Address>, a: Address, i: nat)
    requires Run(s, acts) && Initial(s[0], known) && i <= |acts|
    ensures var c := StoredFor(s, acts, a, i);
      && (a in s[i].shared.clients <==> c.Some?)
      && (c.Some? ==> s[i].shared.clients[a] == c.value)
  {
    hide Next, Enabled;
    if i > 0 {
      CachedExactly(s, acts, known, a, i - 1);
      StepCaches(s[i - 1], acts[i - 1], a);
    }
  }

  /** An activation past the guard dials exactly if no client was stored for its peer before. */
  lemma DialsExactly(s: seq<System>, acts: seq<Action>, known: set<Address>, k: nat)
    requires Run(s, acts) && Initial(s[0], known) && k < |acts| && acts[k].Look?
    ensures var i := acts[k].i;
      && i < |s[k].acts| && i < |s[k + 1].acts|
      && s[k + 1].acts[i].phase == if StoredFor(s, acts, s[k].acts[i].peer, k).Some? then Asking else Dialling
  {
    assert Enabled(s[k], acts[k]) && s[k + 1] == Next(s[k], acts[k]);
    CachedExactly(s, acts, known, s[k].acts[acts[k].i].peer, k);
  }

  // ---------------------------------------------------------------- check and guard

  /** A check passes exactly if the peer is not this node and nothing barred it until later than now. */
  lemma CheckExactly(s: seq<System>, acts: seq<Action>, known: set<Address>, k: nat)
    requires Run(s, acts) && Initial(s[0], known) && k < |acts| && acts[k].Check?
    ensures var i := acts[k].i;
      && i < |s[k].acts| && i < |s[k + 1].acts|
      && s[k + 1].acts[i].phase ==
           if acts[k].self || BarredSince(s, acts, s[k].acts[i].peer, acts[k].now, 0, k) then Gone else Guarding
  {
    assert Enabled(s[k], acts[k]) && s[k + 1] == Next(s[k], acts[k]);
    hide BarredSince, NoneRetimes;
    BackoffSince(s, acts, s[k].acts[acts[k].i].peer, acts[k].now, 0, k);
  }

  /** The guard lets an activation in exactly if no activation for its peer is inside. */
  lemma GuardExactly(s: seq<System>, acts: seq<Action>, known: set<Address>, k: nat)
    requires Run(s, acts) && Initial(s[0], known) && k < |acts| && acts[k].Guard?
    ensures var i := acts[k].i;
      && i < |s[k].acts| && i < |s[k + 1].acts|
      && s[k + 1].acts[i].phase ==
           if exists j :: 0 <= j < |s[k].acts| && Inside(s[k].acts[j]) && s[k].acts[j].peer == s[k].acts[i].peer
           then Gone else Looking
  {
    assert Enabled(s[k], acts[k]) && s[k + 1] == Next(s[k], acts[k]);
    MutualExclusion(s, acts, known, k);
  }

  // ---------------------------------------------------------------- the failure count

  /** A hundred for a peer last found unusable, none after an answer, and one for each timeout since. */
  function FailsSince(s: seq<System>, acts: seq<Action>, a: Address, i: nat): nat
    requires |s| == |acts| + 1 && i <= |acts|
  {
    if i == 0 then 0 else
      var n, act := FailsSince(s, acts, a, i - 1), acts[i - 1];
      if Actor(s[i - 1], act).peer != a then n
      else if act.Dial? && act.dial.Unusable? then 100
      else if act.Ask? && act.ask.Timeout? then n + 1
      else if act.Ask? && act.ask.Peers? then 0 else n
  }

  lemma StepFails(s: System, act: Action, a: Address)
    requires Enabled(s, act)
    ensures var n, m := Nat(s.shared.fails, a), Nat(Next(s, act).shared.fails, a);
      if Actor(s, act).peer != a then m == n
      else if act.Dial? && act.dial.Unusable? then m == 100
      else if act.Ask? && act.ask.Timeout? then m == n + 1
      else if act.Ask? && act.ask.Peers? then m == 0 else m == n
  {
    hide RetryDelay, NextBackoff, News;
  }

  lemma {:induction false} FailsExactly(s: seq<System>, acts: seq<Action>, known: set<Address>, a: Address, i: nat)
    requires Run(s, acts) && Initial(s[0], known) && i <= |acts|
    ensures Nat(s[i].shared.fails, a) == FailsSince(s, acts, a, i)
  {
    if i > 0 {
      hide Next, Enabled;
      FailsExactly(s, acts, known, a, i - 1);
      StepFails(s[i - 1], acts[i - 1], a);
    }
  }

  // ---------------------------------------------------------------- the order of an activation's steps

  predicate Own(act: Action, i: nat) {
    !act.Spawn? && act.i == i
  }

  /** The latest of the first k actions that is activation i's own, or -1. */
  function LatestOwn(acts: seq<Action>, i: nat, k: nat): (j: int)
    requires k <= |acts|
    ensures -1 <= j < k
    ensures j >= 0 ==> Own(acts[j], i)
  {
    if k == 0 then -1 else if Own(acts[k - 1], i) then k - 1 else LatestOwn(acts, i, k - 1)
  }

  /** Which own action may have come last for an activation to be in a phase; None before its first. */
  predicate Leads(last: Option<Action>, phase: Phase) {
    match phase
    case Starting => last.None?
    case Guarding => last.Some? && last.value.Check?
    case Looking => last.Some? && last.value.Guard?
    case Dialling => last.Some? && last.value.Look?
    case Storing(c) => last.Some? && last.value.Dial? && last.value.dial == Dialled(c)
    case Asking => last.Some? && (last.value.Store? || last.value.Look?)
    case Telling(peers) => last.Some? && last.value.Ask? && last.value.ask == Peers(peers)
    case Exchanging => last.Some? && last.value.Tell?
    case Leaving => last.Some? && (
      || last.value.Exchange?
      || (last.value.Ask? && !last.value.ask.Peers?)
      || (last.value.Dial? && !last.value.dial.Dialled?))
    case Gone => last.Some? && (last.value.Check? || last.value.Guard? || last.value.Leave?)
  }

  function Latest(acts: seq<Action>, i: nat, k: nat): Option<Action>
    requires k <= |acts|
  {
    var j := LatestOwn(acts, i, k);
    if j < 0 then None else Some(acts[j])
  }

  lemma OwnStepLeads(s: System, act: Action)
    requires Enabled(s, act) && !act.Spawn?
    ensures act.i < |Next(s, act).acts| && Leads(Some(act), Next(s, act).acts[act.i].phase)
  {
    hide RetryDelay, NextBackoff, News;
  }

  lemma OtherStepKeeps(s: System, act: Action, i: nat)
    requires Enabled(s, act) && !Own(act, i) && i < |Next(s, act).acts|
    ensures i < |s.acts| ==> Next(s, act).acts[i] == s.acts[i]
    ensures i >= |s.acts| ==> Next(s, act).acts[i].phase == Starting
  {
    hide RetryDelay, NextBackoff, News;
  }

  lemma {:induction false} NoOwnBefore(s: seq<System>, acts: seq<Action>, i: nat, k: nat)
    requires Run(s, acts) && k <= |acts| && i >= |s[k].acts|
    ensures LatestOwn(acts, i, k) == -1
  {
    if k > 0 {
      StepGrows(s[k - 1], acts[k - 1]);
      NoOwnBefore(s, acts, i, k - 1);
    }
  }

  lemma StepGrows(s: System, act: Action)
    requires Enabled(s, act)
    ensures |s.acts| <= |Next(s, act).acts|
    ensures !act.Spawn? ==> act.i < |s.acts|
  {
    hide RetryDelay, NextBackoff, News;
  }

  /**
   * Every activation runs check, guard, look-up, dial and store unless cached, ask, and, if it was answered, tell and
   * exchange, in this order and with the values handed on, and leaves at the end.
   */
  lemma {:induction false} StepsInOrder(s: seq<System>, acts: seq<Action>, known: set<Address>, i: nat, k: nat)
    requires Run(s, acts) && Initial(s[0], known) && k <= |acts| && i < |s[k].acts|
    ensures Leads(Latest(acts, i, k), s[k].acts[i].phase)
  {
    hide Next, Enabled, Leads;
    if k > 0 {
      var act := acts[k - 1];
      StepGrows(s[k - 1], act);
      if Own(act, i) {
        OwnStepLeads(s[k - 1], act);
      } else {
        OtherStepKeeps(s[k - 1], act, i);
        if i < |s[k - 1].acts| {
          StepsInOrder(s, acts, known, i, k - 1);
        } else {
          NoOwnBefore(s, acts, i, k - 1);
          StartingLeads();
        }
      }
    }
  }

  lemma StartingLeads()
    ensures Leads(None, Starting)
  {
  }

  // ---------------------------------------------------------------- every run ends

  /** How many own steps an activation has left at most. */
  function Rank(p: Phase): nat {
    match p
    case Starting => 9
    case Guarding => 8
    case Looking => 7
    case Dialling => 6
    case Storing(_) => 5
    case Asking => 4
    case Telling(_) => 3
    case Exchanging => 2
    case Leaving => 1
    case Gone => 0
  }

  function Ranks(acts: seq<Activation>): nat {
    if acts == [] then 0 else Ranks(acts[..|acts| - 1]) + Rank(acts[|acts| - 1].phase)
  }

  lemma {:induction false} RanksMoved(acts: seq<Activation>, i: nat, phase: Phase)
    requires i < |acts|
    ensures Ranks(acts[i := acts[i].(phase := phase)]) == Ranks(acts) - Rank(acts[i].phase) + Rank(phase)
  {
    var n := |acts| - 1;
    var moved := acts[i := acts[i].(phase := phase)];
    if i == n {
      assert moved[..n] == acts[..n];
    } else {
      RanksMoved(acts[..n], i, phase);
      assert moved[..n] == acts[..n][i := acts[i].(phase := phase)];
    }
  }

  lemma {:induction false} RanksMore(acts: seq<Activation>, more: seq<Activation>)
    requires forall k :: 0 <= k < |more| ==> more[k].phase == Starting
    ensures Ranks(acts + more) == Ranks(acts) + 9 * |more|
  {
    if more == [] {
      assert acts + more == acts;
    } else {
      var n := |more| - 1;
      RanksMore(acts, more[..n]);
      assert (acts + more)[..|acts + more| - 1] == acts + more[..n];
    }
  }

  lemma StepRanks(s: System, act: Action)
    requires Enabled(s, act)
    ensures var t := Next(s, act); var more := |t.acts| - |s.acts|;
      && more >= 0
      && Ranks(t.acts) + (if act.Spawn? then 0 else 1) <= Ranks(s.acts) + 9 * more
  {
    hide Ranks, RetryDelay, NextBackoff, News;
    match act
    case Spawn(peer) => RanksMore(s.acts, [Activation(peer, Starting)]);
    case Tell(i) =>
      var me := s.acts[i];
      var news := News(s.shared.known, me.peer, me.phase.peers);
      RanksMoved(s.acts, i, Exchanging);
      RanksMore(s.acts[i := me.(phase := Exchanging)], Fresh(news));
    case _ => RanksMoved(s.acts, act.i, Next(s, act).acts[act.i].phase);
  }

  lemma {:induction false} RanksPaid(s: seq<System>, acts: seq<Action>, known: set<Address>, i: nat)
    requires Run(s, acts) && Initial(s[0], known) && i <= |acts|
    ensures i + Ranks(s[i].acts) <= 9 * |s[i].acts| + |SpawnedFromOutside(acts, i)|
  {
    hide Next, Enabled;
    if i > 0 {
      RanksPaid(s, acts, known, i - 1);
      StepRanks(s[i - 1], acts[i - 1]);
    }
  }

  /**
   * If all peer lists stay within a finite set u, then any run is finite: with n activations started from outside it
   * has at most 10 n + 9 |u - known| actions, whatever the interleaving.
   */
  lemma RunsEnd(s: seq<System>, acts: seq<Action>, known: set<Address>, u: set<Address>)
    requires Run(s, acts) && Initial(s[0], known) && ListsWithin(acts, u)
    ensures |acts| <= 10 * |SpawnedFromOutside(acts, |acts|)| + 9 * |u - known|
  {
    var n := |acts|;
    RanksPaid(s, acts, known, n);
    StartedExactly(s, acts, known, n);
    DiscoverySpawnsOnce(s, acts, known, u, n);
    hide Run, Ranks;
    assert |multiset(PeersOf(s[n].acts))| == |s[n].acts|;
    assert |multiset(SpawnedFromOutside(acts, n)) + multiset(s[n].spawned)| == |SpawnedFromOutside(acts, n)| + |s[n].spawned|;
  }

  /** No activation is ever stuck: until it is gone it has a step of its own. */
  lemma NeverStuck(s: System, i: nat) returns (act: Action)
    requires i < |s.acts| && !s.acts[i].phase.Gone?
    ensures Enabled(s, act) && Own(act, i)
  {
    match s.acts[i].phase
    case Starting => act := Check(i, true, 0);
    case Guarding => act := Guard(i);
    case Looking => act := Look(i);
    case Dialling => act := Dial(i, Failed);
    case Storing(_) => act := Store(i);
    case Asking => act := Ask(i, Refused);
    case Telling(_) => act := Tell(i);
    case Exchanging => act := Exchange(i);
    case Leaving => act := Leave(i);
  }
}
