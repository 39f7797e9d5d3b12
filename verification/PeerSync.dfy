/** The peer sync manager: its critical sections, and all interleavings of syncWithPeer activations. */
module PeerSync {
  import opened Lists

  type Address = string
  type ClientId = nat

  /** Nanoseconds. */
  const SECOND := 1_000_000_000
  const MAX_BACKOFF := 300
  const DOWN_FAILS := 100
  const DOWN_WAIT := 3600 * SECOND

  /** What the manager's lock protects; a missing retry time is Go's zero time. */
  datatype Shared = Shared(
    known: set<Address>,
    clients: map<Address, ClientId>,
    syncing: set<Address>,
    fails: map<Address, nat>,
    backoff: map<Address, nat>,
    retryAt: map<Address, int>)

  function Nat(m: map<Address, nat>, a: Address): nat {
    if a in m then m[a] else 0
  }

  predicate InBackoff(sh: Shared, a: Address, now: int) {
    a in sh.retryAt && now < sh.retryAt[a]
  }

  function NextBackoff(b: nat): (c: nat)
    ensures c > 0
  {
    var doubled := if b <= 0 then 1 else b * 2;
    if doubled > MAX_BACKOFF then MAX_BACKOFF else doubled
  }

  /** The wait a timeout imposes: the backoff, moved by up to a tenth either way by the low digits of the clock. */
  function RetryDelay(b: nat, clock: nat): int
    requires b > 0
  {
    var jitter := b * SECOND / 10;
    b * SECOND + (jitter - clock % (2 * jitter))
  }

  function Entered(sh: Shared, a: Address): Shared { sh.(syncing := sh.syncing + {a}) }
  function Left(sh: Shared, a: Address): Shared { sh.(syncing := sh.syncing - {a}) }
  function Stored(sh: Shared, a: Address, c: ClientId): Shared { sh.(clients := sh.clients[a := c]) }

  function MarkedDown(sh: Shared, a: Address, now: int): Shared {
    sh.(fails := sh.fails[a := DOWN_FAILS], retryAt := sh.retryAt[a := now + DOWN_WAIT])
  }

  function TimedOut(sh: Shared, a: Address, now: int, clock: nat): Shared {
    var b := NextBackoff(Nat(sh.backoff, a));
    sh.(fails := sh.fails[a := Nat(sh.fails, a) + 1],
        backoff := sh.backoff[a := b],
        retryAt := sh.retryAt[a := now + RetryDelay(b, clock)])
  }

  function Succeeded(sh: Shared, a: Address): Shared {
    sh.(fails := sh.fails[a := 0], backoff := sh.backoff[a := 0], retryAt := sh.retryAt - {a})
  }

  /** The addresses of peers that are news, in order: neither the peer asked nor known, each once. */
  function News(known: set<Address>, a: Address, peers: seq<Address>): (news: seq<Address>)
    ensures NoDup(news) && Elements(news) == Elements(peers) - known - {a}
  {
    if peers == [] then ElementsEmpty<Address>([]); [] else
      var n := |peers| - 1;
      var news := News(known, a, peers[..n]);
      var p := peers[n];
      assert peers == peers[..n] + [p];
      ElementsSnoc(peers[..n], p);
      ElementsSnoc(news, p);
      if p == a || p in known || p in Elements(news) then news else NoDupSnoc(news, p); news + [p]
  }

  function Learned(sh: Shared, a: Address, peers: seq<Address>): Shared {
    sh.(known := sh.known + Elements(News(sh.known, a, peers)))
  }

  // ---------------------------------------------------------------- the manager object

  class PeerSyncManager {
    var known: set<Address>
    var clients: map<Address, ClientId>
    var syncing: set<Address>
    var fails: map<Address, nat>
    var backoff: map<Address, nat>
    var retryAt: map<Address, int>

    ghost function State(): Shared
      reads this
    {
      Shared(known, clients, syncing, fails, backoff, retryAt)
    }

    constructor ()
      ensures State() == Shared({}, map[], {}, map[], map[], map[])
    {
      known, clients, syncing := {}, map[], {};
      fails, backoff, retryAt := map[], map[], map[];
    }

    /** Marks a as being synced unless it already is. */
    method TryEnter(a: Address) returns (ok: bool)
      modifies this`syncing
      ensures ok <==> a !in old(syncing)
      ensures State() == if ok then Entered(old(State()), a) else old(State())
    {
      if a in syncing { return false; }
      syncing := syncing + {a};
      ok := true;
    }

    method Leave(a: Address)
      modifies this`syncing
      ensures State() == Left(old(State()), a)
    {
      syncing := syncing - {a};
    }

    method StoreClient(a: Address, c: ClientId)
      modifies this`clients
      ensures State() == Stored(old(State()), a, c)
    {
      clients := clients[a := c];
    }

    method MarkDown(a: Address, now: int)
      modifies this`fails, this`retryAt
      ensures State() == MarkedDown(old(State()), a, now)
    {
      fails := fails[a := DOWN_FAILS];
      retryAt := retryAt[a := now + DOWN_WAIT];
    }

    method RecordTimeout(a: Address, now: int, clock: nat)
      modifies this`fails, this`backoff, this`retryAt
      ensures State() == TimedOut(old(State()), a, now, clock)
    {
      fails := fails[a := Nat(fails, a) + 1];
      var b := Nat(backoff, a);
      if b <= 0 { b := 1; } else { b := b * 2; }
      if b > 300 { b := 300; }
      backoff := backoff[a := b];
      var jitter := b * SECOND / 10;
      retryAt := retryAt[a := now + b * SECOND + (jitter - clock % (2 * jitter))];
    }

    method RecordSuccess(a: Address)
      modifies this`fails, this`backoff, this`retryAt
      ensures State() == Succeeded(old(State()), a)
    {
      fails := fails[a := 0];
      backoff := backoff[a := 0];
      retryAt := retryAt - {a};
    }

    /** Adds a's peers to the known set and returns those to be synced with at once. */
    method Learn(a: Address, peers: seq<Address>) returns (spawn: seq<Address>)
      modifies this`known
      ensures spawn == News(old(known), a, peers)
      ensures State() == Learned(old(State()), a, peers)
    {
      spawn := [];
      ElementsEmpty(spawn);
      for i := 0 to |peers|
        invariant spawn == News(old(known), a, peers[..i])
        invariant known == old(known) + Elements(spawn)
      {
        assert peers[..i + 1][..i] == peers[..i];
        ElementsSnoc(spawn, peers[i]);
        if peers[i] != a && peers[i] !in known {
          known := known + {peers[i]};
          spawn := spawn + [peers[i]];
        }
      }
      assert peers[..|peers|] == peers;
    }

    /** One round of syncAll: the centre, or else the seeds, and every known peer in map-iteration order. */
    method SyncTargets(center: Address, seeds: seq<Address>) returns (targets: seq<Address>)
      ensures multiset(targets) == multiset(if center != "" then [center] else seeds) + multiset(known)
    {
      targets := if center != "" then [center] else seeds;
      ghost var first := multiset(targets);
      var rest := known;
      while rest != {}
        invariant rest <= known
        invariant multiset(targets) == first + multiset(known - rest)
        decreases |rest|
      {
        var p :| p in rest;
        assert known - (rest - {p}) == (known - rest) + {p};
        targets := targets + [p];
        rest := rest - {p};
      }
      assert known - rest == known;
    }
  }

  // ---------------------------------------------------------------- activations and their interleavings

  datatype Phase =
    | Starting
    | Guarding
    | Looking
    | Dialling
    | Storing(client: ClientId)
    | Asking
    | Telling(peers: seq<Address>)
    | Exchanging
    | Leaving
    | Gone

  datatype Activation = Activation(peer: Address, phase: Phase)

  datatype DialOutcome = Unusable(now: int) | Failed | Dialled(client: ClientId)
  datatype AskOutcome = Timeout(now: int, clock: nat) | Refused | Peers(peers: seq<Address>)

  /** One atomic section of activation i, or the start of a new activation from outside. */
  datatype Action =
    | Spawn(peer: Address)
    | Check(i: nat, self: bool, now: int)
    | Guard(i: nat)
    | Look(i: nat)
    | Dial(i: nat, dial: DialOutcome)
    | Store(i: nat)
    | Ask(i: nat, ask: AskOutcome)
    | Tell(i: nat)
    | Exchange(i: nat)
    | Leave(i: nat)

  /** spawned lists the addresses discovery started activations for. */
  datatype System = System(shared: Shared, acts: seq<Activation>, spawned: seq<Address>)

  function Goes(s: System, i: nat, phase: Phase): System
    requires i < |s.acts|
  {
    s.(acts := s.acts[i := s.acts[i].(phase := phase)])
  }

  function Fresh(peers: seq<Address>): (r: seq<Activation>)
    ensures |r| == |peers|
  {
    seq(|peers|, i requires 0 <= i < |peers| => Activation(peers[i], Starting))
  }

  function Actor(s: System, act: Action): Activation {
    if act.Spawn? || act.i >= |s.acts| then Activation("", Gone) else s.acts[act.i]
  }

  /** The phase an action needs its activation to be in. */
  predicate Enabled(s: System, act: Action) {
    var me := Actor(s, act);
    match act
    case Spawn(_) => true
    case Check(_, self, _) => me.phase.Starting? && (me.peer == "" ==> self)
    case Guard(_) => me.phase.Guarding?
    case Look(_) => me.phase.Looking?
    case Dial(_, _) => me.phase.Dialling?
    case Store(_) => me.phase.Storing?
    case Ask(_, _) => me.phase.Asking?
    case Tell(_) => me.phase.Telling?
    case Exchange(_) => me.phase.Exchanging?
    case Leave(_) => me.phase.Leaving?
  }

  function Next(s: System, act: Action): System
    requires Enabled(s, act)
  {
    var me := Actor(s, act);
    var sh := s.shared;
    match act
    case Spawn(peer) => s.(acts := s.acts + [Activation(peer, Starting)])
    case Check(i, self, now) => Goes(s, i, if self || InBackoff(sh, me.peer, now) then Gone else Guarding)
    case Guard(i) =>
      if me.peer in sh.syncing then Goes(s, i, Gone)
      else Goes(s, i, Looking).(shared := Entered(sh, me.peer))
    case Look(i) => Goes(s, i, if me.peer in sh.clients then Asking else Dialling)
    case Dial(i, dial) => (
      match dial
      case Unusable(now) => Goes(s, i, Leaving).(shared := MarkedDown(sh, me.peer, now))
      case Failed => Goes(s, i, Leaving)
      case Dialled(c) => Goes(s, i, Storing(c)))
    case Store(i) => Goes(s, i, Asking).(shared := Stored(sh, me.peer, me.phase.client))
    case Ask(i, ask) => (
      match ask
      case Timeout(now, clock) =>
        Goes(s, i, Leaving).(shared := TimedOut(sh, me.peer, now, clock))
      case Refused => Goes(s, i, Leaving)
      case Peers(peers) =>
        Goes(s, i, Telling(peers)).(shared := Succeeded(sh, me.peer)))
    case Tell(i) =>
      var news := News(sh.known, me.peer, me.phase.peers);
      var t := Goes(s, i, Exchanging);
      t.(shared := Learned(sh, me.peer, me.phase.peers), acts := t.acts + Fresh(news), spawned := s.spawned + news)
    case Exchange(i) => Goes(s, i, Leaving)
    case Leave(i) => Goes(s, i, Gone).(shared := Left(sh, me.peer))
  }

  ghost predicate Run(s: seq<System>, acts: seq<Action>) {
    && |s| == |acts| + 1
    && (forall i :: 0 <= i < |acts| ==> Enabled(s[i], acts[i]) && s[i + 1] == Next(s[i], acts[i]))
  }

  /** A freshly started manager that knows `known` from its store. */
  predicate Initial(s: System, known: set<Address>) {
    s == System(Shared(known, map[], {}, map[], map[], map[]), [], [])
  }

  /** Past the guard and not yet through the deferred delete. */
  predicate Inside(act: Activation) {
    !act.phase.Starting? && !act.phase.Guarding? && !act.phase.Gone?
  }

  /** syncing holds exactly the peers of activations past the guard, and no two of those share a peer. */
  ghost predicate Exclusive(s: System) {
    && (forall i :: 0 <= i < |s.acts| && Inside(s.acts[i]) ==> s.acts[i].peer in s.shared.syncing)
    && (forall a :: a in s.shared.syncing ==> exists i :: 0 <= i < |s.acts| && Inside(s.acts[i]) && s.acts[i].peer == a)
    && (forall i, j :: 0 <= i < j < |s.acts| && Inside(s.acts[i]) && Inside(s.acts[j]) ==> s.acts[i].peer != s.acts[j].peer)
  }

  /** An activation that is dialling or about to store its client has no rival entry in the cache. */
  ghost predicate CacheFree(s: System) {
    forall i :: 0 <= i < |s.acts| && (s.acts[i].phase.Dialling? || s.acts[i].phase.Storing?) ==>
      s.acts[i].peer !in s.shared.clients
  }

  /** acts' is acts with entry i replaced, and possibly new starting activations behind. */
  ghost predicate Moves(acts: seq<Activation>, i: nat, phase: Phase, acts': seq<Activation>) {
    && i < |acts| <= |acts'|
    && acts'[i] == acts[i].(phase := phase)
    && (forall j :: 0 <= j < |acts| && j != i ==> acts'[j] == acts[j])
    && (forall j :: |acts| <= j < |acts'| ==> acts'[j].phase.Starting?)
  }

  lemma KeepsExclusive(s: System, i: nat, phase: Phase, t: System)
    requires Exclusive(s) && Moves(s.acts, i, phase, t.acts)
    requires var wasIn, isIn, a := Inside(s.acts[i]), Inside(t.acts[i]), s.acts[i].peer;
      && (wasIn == isIn ==> t.shared.syncing == s.shared.syncing)
      && (!wasIn && isIn ==> a !in s.shared.syncing && t.shared.syncing == s.shared.syncing + {a})
      && (wasIn && !isIn ==> t.shared.syncing == s.shared.syncing - {a})
    ensures Exclusive(t)
  {
    forall b | b in t.shared.syncing
      ensures exists j :: 0 <= j < |t.acts| && Inside(t.acts[j]) && t.acts[j].peer == b
    {
      if b in s.shared.syncing {
        var j :| 0 <= j < |s.acts| && Inside(s.acts[j]) && s.acts[j].peer == b;
        assert t.acts[j].peer == b;
        assert j != i ==> Inside(t.acts[j]);
      } else {
        assert t.acts[i].peer == b;
      }
    }
  }

  lemma SpawnKeepsExclusive(s: System, peer: Address, t: System)
    requires Exclusive(s) && t == s.(acts := s.acts + [Activation(peer, Starting)])
    ensures Exclusive(t)
  {
    forall b | b in t.shared.syncing
      ensures exists j :: 0 <= j < |t.acts| && Inside(t.acts[j]) && t.acts[j].peer == b
    {
      var j :| 0 <= j < |s.acts| && Inside(s.acts[j]) && s.acts[j].peer == b;
      assert t.acts[j] == s.acts[j];
    }
  }

  lemma StepKeepsExclusive(s: System, act: Action)
    requires Enabled(s, act) && Exclusive(s)
    ensures Exclusive(Next(s, act))
  {
    hide Exclusive, RetryDelay, NextBackoff, News;
    var t := Next(s, act);
    if act.Spawn? {
      SpawnKeepsExclusive(s, act.peer, t);
    } else {
      KeepsExclusive(s, act.i, t.acts[act.i].phase, t);
    }
  }

  lemma StepKeepsCache(s: System, act: Action)
    requires Enabled(s, act) && Exclusive(s) && CacheFree(s)
    ensures CacheFree(Next(s, act))
    ensures forall a :: a in s.shared.clients ==>
      a in Next(s, act).shared.clients && Next(s, act).shared.clients[a] == s.shared.clients[a]
  {
    hide RetryDelay, NextBackoff, News;
  }

  /** In every interleaving: at most one activation per peer is past the guard, and syncing is exactly those peers. */
  lemma {:induction false} MutualExclusion(s: seq<System>, acts: seq<Action>, known: set<Address>, i: nat)
    requires Run(s, acts) && Initial(s[0], known) && i <= |acts|
    ensures Exclusive(s[i]) && CacheFree(s[i])
  {
    hide Exclusive, CacheFree, Next, Enabled;
    if i == 0 {
      InitialIsExclusive(s[0], known);
    } else {
      MutualExclusion(s, acts, known, i - 1);
      StepKeepsExclusive(s[i - 1], acts[i - 1]);
      StepKeepsCache(s[i - 1], acts[i - 1]);
    }
  }

  lemma InitialIsExclusive(s: System, known: set<Address>)
    requires Initial(s, known)
    ensures Exclusive(s) && CacheFree(s)
  {
  }

  /** No cached client is ever overwritten or dropped, although lookup and insertion are separate sections. */
  lemma {:induction false} ClientsNeverOverwritten(s: seq<System>, acts: seq<Action>, known: set<Address>,
                                                   i: nat, j: nat, a: Address)
    requires Run(s, acts) && Initial(s[0], known) && i <= j <= |acts|
    requires a in s[i].shared.clients
    ensures a in s[j].shared.clients && s[j].shared.clients[a] == s[i].shared.clients[a]
    decreases j
  {
    hide Exclusive, CacheFree, Next, Enabled;
    if i < j {
      ClientsNeverOverwritten(s, acts, known, i, j - 1, a);
      MutualExclusion(s, acts, known, j - 1);
      StepKeepsCache(s[j - 1], acts[j - 1]);
    }
  }

  // ---------------------------------------------------------------- discovery

  /** Every address of every peer list is one of u. */
  ghost predicate ListsWithin(acts: seq<Action>, u: set<Address>) {
    forall i :: 0 <= i < |acts| && acts[i].Ask? && acts[i].ask.Peers? ==> Elements(acts[i].ask.peers) <= u
  }

  /** Spawned addresses are distinct and known, were not known at the start, and came from peer lists. */
  ghost predicate SpawnedOnce(s: System, known: set<Address>, u: set<Address>) {
    && NoDup(s.spawned)
    && Elements(s.spawned) <= (s.shared.known - known) * u
    && known <= s.shared.known
    && (forall i :: 0 <= i < |s.acts| && s.acts[i].phase.Telling? ==> Elements(s.acts[i].phase.peers) <= u)
  }

  lemma NoDupConcat(s: seq<Address>, t: seq<Address>)
    requires NoDup(s) && NoDup(t) && Elements(s) !! Elements(t)
    ensures NoDup(s + t)
  {
    forall i, j | 0 <= i < |s| && 0 <= j < |t| ensures s[i] != t[j] {
      assert s[i] in Elements(s) && t[j] in Elements(t);
    }
  }

  lemma StepSpawnsOnce(s: System, act: Action, known: set<Address>, u: set<Address>)
    requires Enabled(s, act) && SpawnedOnce(s, known, u)
    requires act.Ask? && act.ask.Peers? ==> Elements(act.ask.peers) <= u
    ensures SpawnedOnce(Next(s, act), known, u)
  {
    hide RetryDelay, NextBackoff, NoDup, Elements;
    if act.Tell? {
      var me := Actor(s, act);
      var news := News(s.shared.known, me.peer, me.phase.peers);
      NoDupConcat(s.spawned, news);
      ElementsConcat(s.spawned, news);
    }
  }

  /** Discovery spawns each address at most once, so at most as often as there are addresses it can hear of. */
  lemma {:induction false} DiscoverySpawnsOnce(s: seq<System>, acts: seq<Action>, known: set<Address>,
                                               u: set<Address>, i: nat)
    requires Run(s, acts) && Initial(s[0], known) && i <= |acts|
    requires ListsWithin(acts, u)
    ensures SpawnedOnce(s[i], known, u)
    ensures |s[i].spawned| <= |u - known|
  {
    hide Next, Enabled;
    if i == 0 {
      ElementsEmpty(s[0].spawned);
    } else {
      DiscoverySpawnsOnce(s, acts, known, u, i - 1);
      StepSpawnsOnce(s[i - 1], acts[i - 1], known, u);
    }
    ElementsSize(s[i].spawned);
    SubsetSize(Elements(s[i].spawned), u - known);
  }

  // ---------------------------------------------------------------- backoff

  function Pow2(n: nat): (p: nat)
    ensures p > 0
  {
    if n == 0 then 1 else 2 * Pow2(n - 1)
  }

  /** The backoff in seconds after n timeouts since the last success. */
  function BackoffAfter(n: nat): nat {
    if n == 0 then 0 else if Pow2(n - 1) > MAX_BACKOFF then MAX_BACKOFF else Pow2(n - 1)
  }

  lemma BackoffStep(n: nat)
    ensures NextBackoff(BackoffAfter(n)) == BackoffAfter(n + 1)
  {
  }

  lemma BackoffZero()
    ensures BackoffAfter(0) == 0
  {
  }

  /** The timeouts of a among the first i actions that came after its last answer. */
  function TimeoutsSince(s: seq<System>, acts: seq<Action>, a: Address, i: nat): nat
    requires |s| == |acts| + 1 && i <= |acts|
  {
    if i == 0 then 0 else
      var n, act := TimeoutsSince(s, acts, a, i - 1), acts[i - 1];
      if !act.Ask? || Actor(s[i - 1], act).peer != a || act.ask.Refused? then n
      else if act.ask.Timeout? then n + 1 else 0
  }

  lemma StepBackoff(s: System, act: Action, a: Address)
    requires Enabled(s, act)
    ensures var b, c := Nat(s.shared.backoff, a), Nat(Next(s, act).shared.backoff, a);
      if !act.Ask? || Actor(s, act).peer != a || act.ask.Refused? then c == b
      else if act.ask.Timeout? then c == NextBackoff(b) else c == 0
  {
    hide RetryDelay, NextBackoff, News;
  }

  /** In every interleaving, after n timeouts since its last success a peer's backoff is min(300, 2^(n-1)) seconds. */
  lemma {:induction false} BackoffIsCappedDoubling(s: seq<System>, acts: seq<Action>, known: set<Address>,
                                                   a: Address, i: nat)
    requires Run(s, acts) && Initial(s[0], known) && i <= |acts|
    ensures var n := TimeoutsSince(s, acts, a, i);
      Nat(s[i].shared.backoff, a) == if n == 0 then 0 else if Pow2(n - 1) > 300 then 300 else Pow2(n - 1)
  {
    if i > 0 {
      assert |s| == |acts| + 1 && Enabled(s[i - 1], acts[i - 1]) && s[i] == Next(s[i - 1], acts[i - 1]);
      hide Run, Next, Enabled, NextBackoff, Pow2, Nat;
      BackoffIsCappedDoubling(s, acts, known, a, i - 1);
      StepBackoff(s[i - 1], acts[i - 1], a);
      BackoffStep(TimeoutsSince(s, acts, a, i - 1));
      BackoffZero();
    }
  }

  /** The jittered retry wait lies in (0.9 b, 1.1 b] seconds, and its modulus is never zero. */
  lemma RetryDelayBounds(sh: Shared, a: Address, now: int, clock: nat)
    ensures var t := TimedOut(sh, a, now, clock); var b := t.backoff[a];
      && 1 <= b <= MAX_BACKOFF
      && b * SECOND / 10 > 0
      && 9 * b * SECOND < 10 * (t.retryAt[a] - now) <= 11 * b * SECOND
  {
    var b := NextBackoff(Nat(sh.backoff, a));
    var jitter := b * SECOND / 10;
    assert jitter == b * 100_000_000;
    ModBelow(clock, 2 * jitter);
  }

  /** Every wait in that interval comes up at some reading of the clock. */
  lemma RetryDelayReaches(b: nat, w: int) returns (clock: nat)
    requires b > 0 && 9 * b * SECOND < 10 * w <= 11 * b * SECOND
    ensures RetryDelay(b, clock) == w
  {
    var jitter := b * SECOND / 10;
    assert jitter == b * 100_000_000;
    clock := b * SECOND + jitter - w;
    assert 0 <= clock < 2 * jitter;
    SmallMod(clock, 2 * jitter);
  }

  lemma SmallMod(x: nat, m: nat)
    requires x < m
    ensures x % m == x
  {
  }

  lemma ModBelow(x: nat, m: nat)
    requires m > 0
    ensures 0 <= x % m < m
  {
  }

  /**
   * The backoff check is made before the guard, so it can be out of date: whenever one activation waits for a peer's
   * answer and a second one has already passed the check for that peer, a timeout of the first lets the second in
   * while the backoff that the timeout set is still running.
   */
  lemma BackoffCheckCanBeStale(s: System, i: nat, j: nat, now: int, clock: nat) returns (t: System)
    requires i < |s.acts| && j < |s.acts| && s.acts[i].peer == s.acts[j].peer
    requires s.acts[i].phase.Asking? && s.acts[j].phase.Guarding?
    ensures Enabled(s, Ask(i, Timeout(now, clock)))
    ensures var s1 := Next(s, Ask(i, Timeout(now, clock)));
      && Enabled(s1, Leave(i))
      && var s2 := Next(s1, Leave(i));
      && Enabled(s2, Guard(j)) && t == Next(s2, Guard(j))
    ensures t.acts[j].phase.Looking? && InBackoff(t.shared, t.acts[j].peer, now)
  {
    hide RetryDelay, NextBackoff, News;
    RetryDelayBounds(s.shared, s.acts[i].peer, now, clock);
    var s1 := Next(s, Ask(i, Timeout(now, clock)));
    var s2 := Next(s1, Leave(i));
    t := Next(s2, Guard(j));
  }

  /** Such a pair is reached: two activations of one peer are started, both check, and the first gets as far as asking. */
  lemma StalePairIsReached(known: set<Address>, a: Address, c: ClientId, now: int)
    returns (s: seq<System>, acts: seq<Action>)
    requires a != ""
    ensures Run(s, acts) && Initial(s[0], known)
    ensures s[|acts|].acts == [Activation(a, Asking), Activation(a, Guarding)]
  {
    var sh := Shared(known, map[], {}, map[], map[], map[]);
    var rival := Activation(a, Guarding);
    s := [System(sh, [], []),
          System(sh, [Activation(a, Starting)], []),
          System(sh, [Activation(a, Starting), Activation(a, Starting)], []),
          System(sh, [rival, Activation(a, Starting)], []),
          System(sh, [rival, rival], []),
          System(Entered(sh, a), [Activation(a, Looking), rival], []),
          System(Entered(sh, a), [Activation(a, Dialling), rival], []),
          System(Entered(sh, a), [Activation(a, Storing(c)), rival], []),
          System(Stored(Entered(sh, a), a, c), [Activation(a, Asking), rival], [])];
    acts := [Spawn(a), Spawn(a), Check(0, false, now), Check(1, false, now), Guard(0), Look(0), Dial(0, Dialled(c)), Store(0)];
    hide RetryDelay, NextBackoff, News;
    assert Run(s, acts);
  }

  // ---------------------------------------------------------------- when an activation enters during a backoff

  /** The action sets or clears a's retry time. */
  predicate Retimes(s: System, act: Action, a: Address) {
    && Actor(s, act).peer == a
    && ((act.Dial? && act.dial.Unusable?) || (act.Ask? && !act.ask.Refused?))
  }

  /** The action bars a until after time t: it was unusable or timed out, with a retry time after t. */
  predicate BarsPast(s: System, act: Action, a: Address, t: int) {
    && Retimes(s, act, a)
    && (act.Dial? ==> act.dial.now + 3600 * 1_000_000_000 > t)
    && (act.Ask? ==> act.ask.Timeout? &&
                     act.ask.now + RetryDelay(NextBackoff(Nat(s.shared.backoff, a)), act.ask.clock) > t)
  }

  lemma RetimeEffect(s: System, act: Action, a: Address, t: int)
    requires Enabled(s, act)
    ensures InBackoff(Next(s, act).shared, a, t) <==>
      if Retimes(s, act, a) then BarsPast(s, act, a, t) else InBackoff(s.shared, a, t)
  {
    hide RetryDelay, NextBackoff, News, Nat;
  }

  /** Of the actions from c up to g that change a's retry time, the last one bars a past t. */
  ghost predicate BarredSince(s: seq<System>, acts: seq<Action>, a: Address, t: int, c: nat, g: nat)
    requires |s| == |acts| + 1 && g <= |acts|
  {
    exists k :: c <= k < g && BarsPast(s[k], acts[k], a, t) && NoneRetimes(s, acts, a, k + 1, g)
  }

  ghost predicate NoneRetimes(s: seq<System>, acts: seq<Action>, a: Address, from: nat, to: nat)
    requires |s| == |acts| + 1 && to <= |acts|
  {
    forall l :: from <= l < to ==> !Retimes(s[l], acts[l], a)
  }

  /** a is in backoff at time t after g actions exactly when it was barred since c, or was before and nothing retimed it. */
  lemma {:induction false} BackoffSince(s: seq<System>, acts: seq<Action>, a: Address, t: int, c: nat, g: nat)
    requires Run(s, acts) && c <= g <= |acts|
    ensures InBackoff(s[g].shared, a, t) <==>
      BarredSince(s, acts, a, t, c, g) || (InBackoff(s[c].shared, a, t) && NoneRetimes(s, acts, a, c, g))
    decreases g
  {
    hide Enabled, Next, InBackoff, Retimes, BarsPast;
    if g > c {
      var k := g - 1;
      BackoffSince(s, acts, a, t, c, k);
      RetimeEffect(s[k], acts[k], a, t);
      BarsRetimes(s[k], acts[k], a, t);
      if BarsPast(s[k], acts[k], a, t) {
        assert NoneRetimes(s, acts, a, k + 1, g);
      }
      if !Retimes(s[k], acts[k], a) && BarredSince(s, acts, a, t, c, k) {
        var l :| c <= l < k && BarsPast(s[l], acts[l], a, t) && NoneRetimes(s, acts, a, l + 1, k);
        assert NoneRetimes(s, acts, a, l + 1, g);
      }
      if BarredSince(s, acts, a, t, c, g) && !BarsPast(s[k], acts[k], a, t) {
        var l :| c <= l < g && BarsPast(s[l], acts[l], a, t) && NoneRetimes(s, acts, a, l + 1, g);
        assert NoneRetimes(s, acts, a, l + 1, k);
      }
    }
  }

  lemma BarsRetimes(s: System, act: Action, a: Address, t: int)
    ensures BarsPast(s, act, a, t) ==> Retimes(s, act, a)
  {
  }

  /** An activation keeps its peer, and once gone it stays gone. */
  lemma {:induction false} ActivationStays(s: seq<System>, acts: seq<Action>, i: nat, c: nat, g: nat)
    requires Run(s, acts) && c <= g <= |acts| && i < |s[c].acts|
    ensures i < |s[g].acts| && s[g].acts[i].peer == s[c].acts[i].peer
    ensures s[c].acts[i].phase.Gone? ==> s[g].acts[i].phase.Gone?
    decreases g
  {
    if c < g {
      hide Next, Enabled;
      ActivationStays(s, acts, i, c, g - 1);
      StepKeepsActivation(s[g - 1], acts[g - 1], i);
    }
  }

  lemma StepKeepsActivation(s: System, act: Action, i: nat)
    requires Enabled(s, act) && i < |s.acts|
    ensures i < |Next(s, act).acts| && Next(s, act).acts[i].peer == s.acts[i].peer
    ensures s.acts[i].phase.Gone? ==> Next(s, act).acts[i].phase.Gone?
  {
    hide RetryDelay, NextBackoff, News;
  }

  /**
   * An activation checks at step c and comes to the guard at step g, at a time t not before its check. Its peer is
   * then in backoff exactly when, in between, some activation of the peer timed out or found it unusable with a
   * retry time after t, and none since then retimed it or had an answer.
   */
  lemma EntersInBackoffExactly(s: seq<System>, acts: seq<Action>, c: nat, g: nat, i: nat, t: int)
    requires Run(s, acts) && c < g < |acts|
    requires acts[c].Check? && acts[c].i == i && acts[g] == Guard(i) && acts[c].now <= t
    ensures i < |s[c].acts|
    ensures InBackoff(s[g].shared, s[c].acts[i].peer, t) <==>
      BarredSince(s, acts, s[c].acts[i].peer, t, c + 1, g)
  {
    hide BarredSince, NoneRetimes, RetryDelay, NextBackoff, News;
    CheckPasses(s[c], acts[c], t);
    ActivationStays(s, acts, i, c + 1, g);
    assert Enabled(s[g], Guard(i));
    hide Enabled, Next;
    BackoffSince(s, acts, s[c].acts[i].peer, t, c + 1, g);
  }

  lemma CheckPasses(s: System, act: Action, t: int)
    requires act.Check? && Enabled(s, act) && act.now <= t
    ensures act.i < |s.acts| && act.i < |Next(s, act).acts|
    ensures Next(s, act).acts[act.i].phase.Gone? || !InBackoff(Next(s, act).shared, s.acts[act.i].peer, t)
  {
  }
}
