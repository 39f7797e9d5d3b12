/** The two bounded-concurrency batch fetches, over every interleaving of their goroutines. */
module BatchFetch {
  import opened Lists

  /** How many entries of s satisfy p. */
  function Tally<T>(s: seq<T>, p: T -> bool): nat {
    if s == [] then 0 else Tally(s[..|s| - 1], p) + if p(s[|s| - 1]) then 1 else 0
  }

  lemma {:induction false} TallyUpdate<T>(s: seq<T>, p: T -> bool, i: nat, x: T)
    requires i < |s|
    ensures Tally(s[i := x], p) == Tally(s, p) - (if p(s[i]) then 1 else 0) + (if p(x) then 1 else 0)
  {
    var n := |s| - 1;
    if i == n {
      assert s[i := x][..n] == s[..n];
    } else {
      TallyUpdate(s[..n], p, i, x);
      assert s[i := x][..n] == s[..n][i := x];
    }
  }

  function Sum<T>(s: seq<T>, w: T -> nat): nat {
    if s == [] then 0 else Sum(s[..|s| - 1], w) + w(s[|s| - 1])
  }

  lemma {:induction false} SumUpdate<T>(s: seq<T>, w: T -> nat, i: nat, x: T)
    requires i < |s|
    ensures Sum(s[i := x], w) == Sum(s, w) - w(s[i]) + w(x)
  {
    var n := |s| - 1;
    if i == n {
      assert s[i := x][..n] == s[..n];
    } else {
      SumUpdate(s[..n], w, i, x);
      assert s[i := x][..n] == s[..n][i := x];
    }
  }

  lemma {:induction false} TallyBound<T>(s: seq<T>, p: T -> bool)
    ensures Tally(s, p) <= |s|
    ensures Tally(s, p) > 0 ==> exists i :: 0 <= i < |s| && p(s[i])
    ensures (forall i :: 0 <= i < |s| ==> !p(s[i])) ==> Tally(s, p) == 0
  {
    if s != [] {
      TallyBound(s[..|s| - 1], p);
    }
  }

  lemma {:induction false} TallySub<T>(s: seq<T>, p: T -> bool, q: T -> bool)
    requires forall x :: p(x) ==> q(x)
    ensures Tally(s, p) <= Tally(s, q)
  {
    if s != [] { TallySub(s[..|s| - 1], p, q); }
  }
}

/** CrawlerServer.BatchFetch: all goroutines start at once, a semaphore bounds the fetches, slots are indexed. */
module ServerBatch {
  import opened Lists
  import opened BatchFetch

  /**
   * A goroutine's life: not started; blocked on the semaphore; fetching; its outcome stored; its semaphore
   * slot given back; counted off the wait group.
   */
  datatype Phase = Unborn | Waiting | Fetching | Stored | Released | Done

  datatype State<R> = State(
    phases: seq<Phase>, spawned: nat, semaphore: nat, waitGroup: nat,
    slots: seq<Option<R>>, returned: bool)

  datatype Action = Spawn | Acquire(i: nat) | Store(i: nat) | Release(i: nat) | Finish(i: nat) | Return

  predicate Holds(p: Phase) { p.Fetching? || p.Stored? }
  predicate Counted(p: Phase) { !p.Unborn? && !p.Done? }

  predicate Enabled<R>(s: State<R>, a: Action, limit: nat) {
    match a
    case Spawn => s.spawned < |s.phases| && s.phases[s.spawned].Unborn?
    case Acquire(i) => i < |s.phases| && s.phases[i].Waiting? && s.semaphore < limit
    case Store(i) => i < |s.phases| && i < |s.slots| && s.phases[i].Fetching?
    case Release(i) => i < |s.phases| && s.phases[i].Stored? && s.semaphore > 0
    case Finish(i) => i < |s.phases| && s.phases[i].Released? && s.waitGroup > 0
    case Return => s.spawned == |s.phases| && s.waitGroup == 0 && !s.returned
  }

  /** outcome[i] is what fetching request i yields, an error already turned into a response. */
  function Next<R>(s: State<R>, a: Action, limit: nat, outcome: seq<R>): State<R>
    requires Enabled(s, a, limit) && |outcome| == |s.phases|
  {
    match a
    case Spawn =>
      s.(phases := s.phases[s.spawned := Waiting], spawned := s.spawned + 1, waitGroup := s.waitGroup + 1)
    case Acquire(i) => s.(phases := s.phases[i := Fetching], semaphore := s.semaphore + 1)
    case Store(i) => s.(phases := s.phases[i := Stored], slots := s.slots[i := Some(outcome[i])])
    case Release(i) => s.(phases := s.phases[i := Released], semaphore := s.semaphore - 1)
    case Finish(i) => s.(phases := s.phases[i := Done], waitGroup := s.waitGroup - 1)
    case Return => s.(returned := true)
  }

  function Start<R>(n: nat): State<R> {
    State(seq(n, _ => Unborn), 0, 0, 0, seq(n, _ => None), false)
  }

  ghost predicate Run<R>(s: seq<State<R>>, acts: seq<Action>, limit: nat, outcome: seq<R>) {
    && |s| == |acts| + 1
    && s[0] == Start(|outcome|)
    && (forall i :: 0 <= i < |acts| ==>
          Enabled(s[i], acts[i], limit) && |s[i].phases| == |outcome| && s[i + 1] == Next(s[i], acts[i], limit, outcome))
  }

  ghost predicate Inv<R>(s: State<R>, limit: nat, outcome: seq<R>) {
    && |s.phases| == |s.slots| == |outcome|
    && s.spawned <= |s.phases|
    && (forall i :: 0 <= i < |s.phases| ==> (s.phases[i].Unborn? <==> s.spawned <= i))
    && s.semaphore == Tally(s.phases, Holds) && s.semaphore <= limit
    && s.waitGroup == Tally(s.phases, Counted)
    && (forall i :: 0 <= i < |s.slots| ==>
          s.slots[i] == if s.phases[i].Stored? || s.phases[i].Released? || s.phases[i].Done? then Some(outcome[i]) else None)
    && (s.returned ==> s.spawned == |s.phases| && s.waitGroup == 0)
  }

  lemma StartInv<R>(limit: nat, outcome: seq<R>)
    ensures Inv(Start<R>(|outcome|), limit, outcome)
  {
    TallyBound(Start<R>(|outcome|).phases, Holds);
    TallyBound(Start<R>(|outcome|).phases, Counted);
  }

  lemma StepInv<R>(s: State<R>, a: Action, limit: nat, outcome: seq<R>)
    requires Inv(s, limit, outcome) && Enabled(s, a, limit)
    ensures Inv(Next(s, a, limit, outcome), limit, outcome)
  {
    hide Tally;
    var t := Next(s, a, limit, outcome);
    if !a.Return? {
      var i := if a.Spawn? then s.spawned else a.i;
      TallyUpdate(s.phases, Holds, i, t.phases[i]);
      TallyUpdate(s.phases, Counted, i, t.phases[i]);
      if s.returned { NoneCounted(s.phases, i); }
    }
  }

  lemma NoneCounted(phases: seq<Phase>, i: nat)
    requires i < |phases| && Tally(phases, Counted) == 0
    ensures !Counted(phases[i])
  {
    if Counted(phases[i]) {
      TallyUpdate(phases, Counted, i, Done);
    }
  }

  lemma {:induction false} Reachable<R>(s: seq<State<R>>, acts: seq<Action>, limit: nat, outcome: seq<R>, i: nat)
    requires Run(s, acts, limit, outcome) && i <= |acts|
    ensures Inv(s[i], limit, outcome)
  {
    if i == 0 {
      StartInv(limit, outcome);
    } else {
      Reachable(s, acts, limit, outcome, i - 1);
      StepInv(s[i - 1], acts[i - 1], limit, outcome);
    }
  }

  predicate InFlight(p: Phase) { p.Fetching? }

  /** In every interleaving at most `limit` fetches are in flight. */
  lemma BoundedInFlight<R>(s: seq<State<R>>, acts: seq<Action>, limit: nat, outcome: seq<R>, i: nat)
    requires Run(s, acts, limit, outcome) && i <= |acts|
    ensures Tally(s[i].phases, InFlight) <= limit
  {
    Reachable(s, acts, limit, outcome, i);
    TallySub(s[i].phases, InFlight, Holds);
  }

  /** When BatchFetch returns, slot i holds request i's outcome and every goroutine is done. */
  lemma ReturnsEveryOutcome<R>(s: seq<State<R>>, acts: seq<Action>, limit: nat, outcome: seq<R>, i: nat)
    requires Run(s, acts, limit, outcome) && i <= |acts| && s[i].returned
    ensures |s[i].slots| == |outcome|
    ensures forall k :: 0 <= k < |outcome| ==> s[i].slots[k] == Some(outcome[k])
  {
    Reachable(s, acts, limit, outcome, i);
    forall k | 0 <= k < |outcome| ensures s[i].slots[k] == Some(outcome[k]) {
      NoneCounted(s[i].phases, k);
    }
  }

  /** A goroutine is held back exactly while as many others as the limit allows hold the semaphore. */
  lemma HeldBackExactly<R>(s: seq<State<R>>, acts: seq<Action>, limit: nat, outcome: seq<R>, k: nat, i: nat)
    requires Run(s, acts, limit, outcome) && k <= |acts| && i < |s[k].phases| && s[k].phases[i].Waiting?
    ensures !Enabled(s[k], Acquire(i), limit) <==> Tally(s[k].phases, Holds) == limit
  {
    Reachable(s, acts, limit, outcome, k);
  }

  /** No deadlock: with a positive limit, every state short of the return has an enabled step. */
  lemma SomeStepEnabled<R>(s: State<R>, limit: nat, outcome: seq<R>) returns (a: Action)
    requires Inv(s, limit, outcome) && limit > 0 && !s.returned
    ensures Enabled(s, a, limit)
  {
    if s.spawned < |s.phases| {
      a := Spawn;
    } else if s.waitGroup == 0 {
      a := Return;
    } else if s.semaphore > 0 {
      TallyBound(s.phases, Holds);
      var i :| 0 <= i < |s.phases| && Holds(s.phases[i]);
      a := if s.phases[i].Fetching? then Store(i) else Release(i);
    } else {
      TallyBound(s.phases, Counted);
      var i :| 0 <= i < |s.phases| && Counted(s.phases[i]);
      if Holds(s.phases[i]) { TallyUpdate(s.phases, Holds, i, Done); }
      a := if s.phases[i].Waiting? then Acquire(i) else Finish(i);
    }
  }

  function Left(p: Phase): nat {
    match p
    case Unborn => 5
    case Waiting => 4
    case Fetching => 3
    case Stored => 2
    case Released => 1
    case Done => 0
  }

  function Measure<R>(s: State<R>): nat {
    Sum(s.phases, Left) + if s.returned then 0 else 1
  }

  /** Every step makes progress, so every interleaving is finite. */
  lemma MeasureDecreases<R>(s: State<R>, a: Action, limit: nat, outcome: seq<R>)
    requires Enabled(s, a, limit) && |outcome| == |s.phases|
    ensures Measure(Next(s, a, limit, outcome)) < Measure(s)
  {
    if !a.Return? {
      var i := if a.Spawn? then s.spawned else a.i;
      SumUpdate(s.phases, Left, i, Next(s, a, limit, outcome).phases[i]);
    }
  }
}

/** Client.BatchFetch: the loop takes a semaphore slot before each spawn; results arrive over a buffered channel. */
module ClientBatch {
  import opened Lists
  import opened BatchFetch

  /** Not started; fetching; its result sent; its semaphore slot given back. */
  datatype Phase = Unborn | Fetching | Sent | Done

  datatype State<R> = State(phases: seq<Phase>, spawned: nat, semaphore: nat, channel: seq<R>, responses: seq<R>)

  datatype Action = Spawn | Send(i: nat) | Release(i: nat) | Receive

  predicate Holds(p: Phase) { p.Fetching? || p.Sent? }

  predicate Enabled<R>(s: State<R>, a: Action, limit: nat) {
    match a
    case Spawn => s.spawned < |s.phases| && s.phases[s.spawned].Unborn? && s.semaphore < limit
    case Send(i) => i < |s.phases| && s.phases[i].Fetching? && |s.channel| < |s.phases|
    case Release(i) => i < |s.phases| && s.phases[i].Sent? && s.semaphore > 0
    case Receive => s.spawned == |s.phases| && s.channel != [] && |s.responses| < |s.phases|
  }

  function Next<R>(s: State<R>, a: Action, limit: nat, outcome: seq<R>): State<R>
    requires Enabled(s, a, limit) && |outcome| == |s.phases|
  {
    match a
    case Spawn =>
      s.(phases := s.phases[s.spawned := Fetching], spawned := s.spawned + 1, semaphore := s.semaphore + 1)
    case Send(i) => s.(phases := s.phases[i := Sent], channel := s.channel + [outcome[i]])
    case Release(i) => s.(phases := s.phases[i := Done], semaphore := s.semaphore - 1)
    case Receive => s.(channel := s.channel[1..], responses := s.responses + [s.channel[0]])
  }

  function Start<R>(n: nat): State<R> {
    State(seq(n, _ => Unborn), 0, 0, [], [])
  }

  ghost predicate Run<R>(s: seq<State<R>>, acts: seq<Action>, limit: nat, outcome: seq<R>) {
    && |s| == |acts| + 1
    && s[0] == Start(|outcome|)
    && (forall i :: 0 <= i < |acts| ==>
          Enabled(s[i], acts[i], limit) && |s[i].phases| == |outcome| && s[i + 1] == Next(s[i], acts[i], limit, outcome))
  }

  predicate HasSent(p: Phase) { p.Sent? || p.Done? }

  function SentBy<R>(p: Phase, x: R): multiset<R> {
    if HasSent(p) then multiset{x} else multiset{}
  }

  /** The outcomes whose goroutine has sent. */
  function SentOutcomes<R>(phases: seq<Phase>, outcome: seq<R>): multiset<R>
    requires |phases| == |outcome|
  {
    if phases == [] then multiset{} else
      var n := |phases| - 1;
      SentOutcomes(phases[..n], outcome[..n]) + SentBy(phases[n], outcome[n])
  }

  lemma SentLast<R>(phases: seq<Phase>, outcome: seq<R>, n: nat)
    requires |phases| == |outcome| == n + 1
    ensures SentOutcomes(phases, outcome) == SentOutcomes(phases[..n], outcome[..n]) + SentBy(phases[n], outcome[n])
  {
    hide SentBy;
  }

  function Sending<R>(before: Phase, after: Phase, x: R): multiset<R> {
    if !HasSent(before) && HasSent(after) then multiset{x} else multiset{}
  }

  lemma AddLast<R>(a: multiset<R>, b: multiset<R>, c: multiset<R>)
    ensures (a + b) + c == (a + c) + b
    ensures a + multiset{} == a
  {
  }

  lemma {:induction false} SentUpdate<R>(phases: seq<Phase>, outcome: seq<R>, i: nat, p: Phase)
    requires |phases| == |outcome| && i < |phases|
    requires HasSent(phases[i]) ==> HasSent(p)
    ensures SentOutcomes(phases[i := p], outcome) == SentOutcomes(phases, outcome) + Sending(phases[i], p, outcome[i])
  {
    var n, qs := |phases| - 1, phases[i := p];
    hide SentOutcomes, HasSent, Sending, SentBy;
    SentLast(qs, outcome, n);
    SentLast(phases, outcome, n);
    var sent := SentOutcomes(phases[..n], outcome[..n]);
    if i == n {
      assert qs[..n] == phases[..n] && qs[n] == p;
      SendingLast(sent, phases[n], p, outcome[n]);
    } else {
      SentUpdate(phases[..n], outcome[..n], i, p);
      assert qs[..n] == phases[..n][i := p] && qs[n] == phases[n];
      AddLast(sent, Sending(phases[i], p, outcome[i]), SentBy(phases[n], outcome[n]));
    }
  }

  lemma SendingLast<R>(a: multiset<R>, before: Phase, after: Phase, x: R)
    requires HasSent(before) ==> HasSent(after)
    ensures a + SentBy(after, x) == (a + SentBy(before, x)) + Sending(before, after, x)
  {
  }

  lemma {:induction false} SentSize<R>(phases: seq<Phase>, outcome: seq<R>)
    requires |phases| == |outcome|
    ensures |SentOutcomes(phases, outcome)| <= |phases|
    ensures |SentOutcomes(phases, outcome)| == |phases| ==> SentOutcomes(phases, outcome) == multiset(outcome)
    ensures |SentOutcomes(phases, outcome)| < |phases| <==> exists i :: 0 <= i < |phases| && !HasSent(phases[i])
  {
    if phases != [] {
      var n := |phases| - 1;
      SentSize(phases[..n], outcome[..n]);
      assert outcome == outcome[..n] + [outcome[n]];
    }
  }

  ghost predicate Inv<R>(s: State<R>, limit: nat, outcome: seq<R>) {
    Shape(s, limit, outcome) && Conserved(s, outcome)
  }

  /** Every sent outcome is in the channel or among the responses, once. */
  ghost predicate Conserved<R>(s: State<R>, outcome: seq<R>) {
    && |s.phases| == |outcome|
    && multiset(s.responses) + multiset(s.channel) == SentOutcomes(s.phases, outcome)
  }

  ghost predicate Shape<R>(s: State<R>, limit: nat, outcome: seq<R>) {
    && |s.phases| == |outcome|
    && s.spawned <= |s.phases|
    && (forall i :: 0 <= i < |s.phases| ==> (s.phases[i].Unborn? <==> s.spawned <= i))
    && s.semaphore == Tally(s.phases, Holds) && s.semaphore <= limit
    && (s.responses != [] ==> s.spawned == |s.phases|)
  }

  lemma {:induction false} NoneSent<R>(phases: seq<Phase>, outcome: seq<R>)
    requires |phases| == |outcome| && (forall i :: 0 <= i < |phases| ==> phases[i].Unborn?)
    ensures SentOutcomes(phases, outcome) == multiset{}
  {
    if phases != [] { NoneSent(phases[..|phases| - 1], outcome[..|phases| - 1]); }
  }

  lemma StepKeepsShape<R>(s: State<R>, a: Action, limit: nat, outcome: seq<R>)
    requires Shape(s, limit, outcome) && Enabled(s, a, limit)
    ensures Shape(Next(s, a, limit, outcome), limit, outcome)
  {
    if !a.Receive? {
      var i := if a.Spawn? then s.spawned else a.i;
      TallyUpdate(s.phases, Holds, i, Next(s, a, limit, outcome).phases[i]);
    }
  }

  lemma StepConserves<R>(s: State<R>, a: Action, limit: nat, outcome: seq<R>)
    requires Conserved(s, outcome) && Enabled(s, a, limit)
    ensures Conserved(Next(s, a, limit, outcome), outcome)
  {
    hide SentOutcomes;
    if a.Receive? {
      assert s.channel == [s.channel[0]] + s.channel[1..];
    } else {
      var i := if a.Spawn? then s.spawned else a.i;
      SentUpdate(s.phases, outcome, i, Next(s, a, limit, outcome).phases[i]);
    }
  }

  lemma StepInv<R>(s: State<R>, a: Action, limit: nat, outcome: seq<R>)
    requires Inv(s, limit, outcome) && Enabled(s, a, limit)
    ensures Inv(Next(s, a, limit, outcome), limit, outcome)
  {
    hide Shape, Conserved, Next, Enabled;
    StepKeepsShape(s, a, limit, outcome);
    StepConserves(s, a, limit, outcome);
  }

  lemma {:induction false} Reachable<R>(s: seq<State<R>>, acts: seq<Action>, limit: nat, outcome: seq<R>, i: nat)
    requires Run(s, acts, limit, outcome) && i <= |acts|
    ensures Inv(s[i], limit, outcome)
  {
    if i == 0 {
      TallyBound(s[0].phases, Holds);
      NoneSent(s[0].phases, outcome);
    } else {
      Reachable(s, acts, limit, outcome, i - 1);
      StepInv(s[i - 1], acts[i - 1], limit, outcome);
    }
  }

  predicate InFlight(p: Phase) { p.Fetching? }

  /** In every interleaving at most `limit` fetches are in flight. */
  lemma BoundedInFlight<R>(s: seq<State<R>>, acts: seq<Action>, limit: nat, outcome: seq<R>, i: nat)
    requires Run(s, acts, limit, outcome) && i <= |acts|
    ensures Tally(s[i].phases, InFlight) <= limit
  {
    Reachable(s, acts, limit, outcome, i);
    TallySub(s[i].phases, InFlight, Holds);
  }

  /** Once as many responses as requests arrived, they are the outcomes, each once, in some order. */
  lemma ResponsesAreOutcomes<R>(s: seq<State<R>>, acts: seq<Action>, limit: nat, outcome: seq<R>, i: nat)
    requires Run(s, acts, limit, outcome) && i <= |acts| && |s[i].responses| == |outcome|
    ensures multiset(s[i].responses) == multiset(outcome)
  {
    Reachable(s, acts, limit, outcome, i);
    SentSize(s[i].phases, outcome);
    var r, c := multiset(s[i].responses), multiset(s[i].channel);
    assert |r + c| == |r| + |c| && |r| == |s[i].responses| && |c| == |s[i].channel|;
    assert s[i].channel == [];
  }

  /** A goroutine can always send: the channel has room for every result. */
  lemma SendNeverBlocks<R>(s: State<R>, limit: nat, outcome: seq<R>, i: nat)
    requires Inv(s, limit, outcome) && i < |s.phases| && s.phases[i].Fetching?
    ensures Enabled(s, Send(i), limit)
  {
    SentSize(s.phases, outcome);
    var r, c := multiset(s.responses), multiset(s.channel);
    assert |r + c| == |r| + |c|;
  }

  /** The next goroutine is held back exactly while as many others as the limit allows hold the semaphore. */
  lemma HeldBackExactly<R>(s: seq<State<R>>, acts: seq<Action>, limit: nat, outcome: seq<R>, k: nat)
    requires Run(s, acts, limit, outcome) && k <= |acts| && s[k].spawned < |outcome|
    ensures !Enabled(s[k], Spawn, limit) <==> Tally(s[k].phases, Holds) == limit
  {
    Reachable(s, acts, limit, outcome, k);
  }

  /** No deadlock: with a positive limit, every state short of the last response has an enabled step. */
  lemma SomeStepEnabled<R>(s: State<R>, limit: nat, outcome: seq<R>) returns (a: Action)
    requires Inv(s, limit, outcome) && limit > 0 && |s.responses| < |outcome|
    ensures Enabled(s, a, limit)
  {
    if s.spawned < |s.phases| && s.semaphore < limit {
      a := Spawn;
    } else if s.semaphore > 0 {
      TallyBound(s.phases, Holds);
      var i :| 0 <= i < |s.phases| && Holds(s.phases[i]);
      if s.phases[i].Fetching? { SendNeverBlocks(s, limit, outcome, i); }
      a := if s.phases[i].Fetching? then Send(i) else Release(i);
    } else {
      SentSize(s.phases, outcome);
      forall i | 0 <= i < |s.phases| ensures s.phases[i].Done? {
        if Holds(s.phases[i]) { TallyUpdate(s.phases, Holds, i, Done); }
      }
      var r, c := multiset(s.responses), multiset(s.channel);
      assert |r + c| == |r| + |c|;
      a := Receive;
    }
  }

  function Left(p: Phase): nat {
    match p
    case Unborn => 4
    case Fetching => 3
    case Sent => 1
    case Done => 0
  }

  function Measure<R>(s: State<R>): nat {
    Sum(s.phases, Left) + |s.channel|
  }

  /** Every step makes progress, so every interleaving is finite. */
  lemma MeasureDecreases<R>(s: State<R>, a: Action, limit: nat, outcome: seq<R>)
    requires Enabled(s, a, limit) && |outcome| == |s.phases|
    ensures Measure(Next(s, a, limit, outcome)) < Measure(s)
  {
    if !a.Receive? {
      var i := if a.Spawn? then s.spawned else a.i;
      SumUpdate(s.phases, Left, i, Next(s, a, limit, outcome).phases[i]);
    }
  }
}
