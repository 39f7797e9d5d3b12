/** The client's connection pool: the backward prune-and-reuse scan, dialling, and closing. */
module ConnectionPools {
  import opened Lists

  datatype ConnState = Idle | Connecting | Ready | TransientFailure | Shutdown

  predicate Broken(s: ConnState) { s.TransientFailure? || s.Shutdown? }

  /** A connection handle; its state belongs to the transport and is read by the scan. */
  datatype Conn = Conn(id: int)

  /** The connections from position i on that were not seen broken, in order. */
  function Survivors(conns: seq<Conn>, seen: seq<ConnState>, i: nat): seq<Conn>
    requires i <= |conns| == |seen|
    decreases |conns| - i
  {
    if i == |conns| then [] else
      (if Broken(seen[i]) then [] else [conns[i]]) + Survivors(conns, seen, i + 1)
  }

  /** The connections from position i on that were seen broken. */
  function BrokenFrom(conns: seq<Conn>, seen: seq<ConnState>, i: nat): set<Conn>
    requires i <= |conns| == |seen|
    decreases |conns| - i
  {
    if i == |conns| then {} else
      BrokenFrom(conns, seen, i + 1) + if Broken(seen[i]) then {conns[i]} else {}
  }

  /** The highest position below n seen ready, or -1. */
  function LastReady(seen: seq<ConnState>, n: nat): (r: int)
    requires n <= |seen|
    ensures -1 <= r < n
  {
    if n == 0 then -1 else if seen[n - 1].Ready? then n - 1 else LastReady(seen, n - 1)
  }

  lemma {:induction false} LastReadyIsHighest(seen: seq<ConnState>, n: nat, j: nat)
    requires j < n <= |seen|
    ensures seen[j].Ready? ==> j <= LastReady(seen, n)
    ensures LastReady(seen, n) >= 0 ==> seen[LastReady(seen, n)].Ready?
  {
    if j < n - 1 {
      LastReadyIsHighest(seen, n - 1, j);
    } else if n > 1 {
      LastReadyIsHighest(seen, n - 1, 0);
    }
  }

  /** A connection at or after i survives exactly when it was not seen broken. */
  lemma {:induction false} SurvivorsExact(conns: seq<Conn>, seen: seq<ConnState>, i: nat)
    requires i <= |conns| == |seen| && NoDup(conns)
    ensures Elements(Survivors(conns, seen, i)) == Elements(conns[i..]) - BrokenFrom(conns, seen, i)
    ensures BrokenFrom(conns, seen, i) <= Elements(conns[i..])
    decreases |conns| - i
  {
    if i < |conns| {
      SurvivorsExact(conns, seen, i + 1);
      SurvivorsUnfold(conns, seen, i);
      LaterOnly(conns, i);
      var rest := Survivors(conns, seen, i + 1);
      assert conns[i..] == [conns[i]] + conns[i + 1..];
      ElementsConcat([conns[i]], conns[i + 1..]);
      ElementsConcat([conns[i]], rest);
      assert Elements([conns[i]]) == {conns[i]};
      assert [] + rest == rest;
      hide Survivors, BrokenFrom, NoDup, Elements;
    }
  }

  /** Connection j, at or after i, is kept exactly when it was not seen broken, and closed exactly when it was. */
  lemma {:induction false} KeptExactly(conns: seq<Conn>, seen: seq<ConnState>, i: nat, j: nat)
    requires i <= j < |conns| == |seen| && NoDup(conns)
    ensures conns[j] in Survivors(conns, seen, i) <==> seen[j] in {Idle, Connecting, Ready}
    ensures conns[j] in BrokenFrom(conns, seen, i) <==> seen[j] in {TransientFailure, Shutdown}
    decreases |conns| - i
  {
    var rest := Survivors(conns, seen, i + 1);
    SurvivorsUnfold(conns, seen, i);
    SurvivorsExact(conns, seen, i + 1);
    hide Survivors, BrokenFrom;
    if j == i {
      LaterOnly(conns, i);
      assert conns[i] in rest ==> conns[i] in Elements(rest);
    } else {
      KeptExactly(conns, seen, i + 1, j);
    }
  }

  lemma SurvivorsUnfold(conns: seq<Conn>, seen: seq<ConnState>, i: nat)
    requires i < |conns| == |seen|
    ensures Survivors(conns, seen, i) == (if Broken(seen[i]) then [] else [conns[i]]) + Survivors(conns, seen, i + 1)
    ensures BrokenFrom(conns, seen, i) == BrokenFrom(conns, seen, i + 1) + if Broken(seen[i]) then {conns[i]} else {}
  {
  }

  lemma LaterOnly(conns: seq<Conn>, i: nat)
    requires i < |conns| && NoDup(conns)
    ensures conns[i] !in Elements(conns[i + 1..])
  {
  }

  /** Survivors keep their order: entry p of the kept list sits further back in conns for every larger p. */
  ghost predicate InOrder(kept: seq<Conn>, conns: seq<Conn>, at: seq<nat>, i: nat) {
    && |at| == |kept|
    && (forall p :: 0 <= p < |at| ==> i <= at[p] < |conns| && kept[p] == conns[at[p]])
    && (forall p, q :: 0 <= p < q < |at| ==> at[p] < at[q])
  }

  lemma {:induction false} SurvivorsInOrder(conns: seq<Conn>, seen: seq<ConnState>, i: nat) returns (at: seq<nat>)
    requires i <= |conns| == |seen|
    ensures InOrder(Survivors(conns, seen, i), conns, at, i)
    ensures forall p :: 0 <= p < |at| ==> !Broken(seen[at[p]])
    decreases |conns| - i
  {
    at := [];
    if i < |conns| {
      at := SurvivorsInOrder(conns, seen, i + 1);
      SurvivorsUnfold(conns, seen, i);
      hide Survivors;
      if !Broken(seen[i]) {
        at := [i] + at;
      }
    }
  }

  /** Of two survivors the one earlier in conns is earlier in the kept list. */
  lemma SurvivorsKeepOrder(conns: seq<Conn>, seen: seq<ConnState>, i: nat, j: nat, k: nat) returns (p: nat, q: nat)
    requires i <= j < k < |conns| == |seen| && NoDup(conns)
    requires !Broken(seen[j]) && !Broken(seen[k])
    ensures p < q < |Survivors(conns, seen, i)|
    ensures Survivors(conns, seen, i)[p] == conns[j] && Survivors(conns, seen, i)[q] == conns[k]
  {
    KeptExactly(conns, seen, i, j);
    KeptExactly(conns, seen, i, k);
    var at := SurvivorsInOrder(conns, seen, i);
    hide Survivors;
    var kept := Survivors(conns, seen, i);
    p :| 0 <= p < |kept| && kept[p] == conns[j];
    q :| 0 <= q < |kept| && kept[q] == conns[k];
    assert at[p] == j && at[q] == k;
  }

  lemma {:induction false} SurvivorsShort(conns: seq<Conn>, seen: seq<ConnState>, i: nat)
    requires i <= |conns| == |seen|
    ensures |Survivors(conns, seen, i)| <= |conns| - i
    ensures |Survivors(conns, seen, i)| == |conns| - i ==> Survivors(conns, seen, i) == conns[i..]
    decreases |conns| - i
  {
    if i < |conns| {
      SurvivorsShort(conns, seen, i + 1);
    }
  }

  /** What the list is when the scan has come down to position n: the rest unscanned, the broken ones above dropped. */
  function Scanned(conns: seq<Conn>, seen: seq<ConnState>, n: nat): seq<Conn>
    requires n <= |conns| == |seen|
  {
    conns[..n] + Survivors(conns, seen, n)
  }

  lemma ScannedStep(conns: seq<Conn>, seen: seq<ConnState>, n: nat)
    requires n < |conns| == |seen|
    ensures var now := Scanned(conns, seen, n + 1);
      && n < |now| && now[n] == conns[n]
      && Scanned(conns, seen, n) == if Broken(seen[n]) then now[..n] + now[n + 1..] else now
  {
    var rest := Survivors(conns, seen, n + 1);
    assert Survivors(conns, seen, n) == (if Broken(seen[n]) then [] else [conns[n]]) + rest;
    hide Survivors;
    var now := conns[..n + 1] + rest;
    assert now[..n] == conns[..n] && now[n + 1..] == rest;
  }

  lemma ScanUnfold(conns: seq<Conn>, seen: seq<ConnState>, n: nat)
    requires n < |conns| == |seen|
    ensures BrokenFrom(conns, seen, n) == BrokenFrom(conns, seen, n + 1) + if Broken(seen[n]) then {conns[n]} else {}
    ensures LastReady(seen, n + 1) == if seen[n].Ready? then n else LastReady(seen, n)
  {
  }

  /** What the scan has made of the pool when it has come down to position n without meeting a ready connection. */
  ghost predicate ScanAt(before: seq<Conn>, seen: seq<ConnState>, n: nat, was: set<Conn>,
                         conns: seq<Conn>, size: int, closed: set<Conn>)
    requires n <= |before| == |seen|
  {
    && conns == Scanned(before, seen, n) && size == |conns|
    && closed == was + BrokenFrom(before, seen, n)
    && LastReady(seen, n) == LastReady(seen, |seen|)
  }

  lemma ScanStart(conns: seq<Conn>, seen: seq<ConnState>, was: set<Conn>)
    requires |conns| == |seen|
    ensures ScanAt(conns, seen, |conns|, was, conns, |conns|, was)
  {
  }

  lemma UnionOnwards(a: set<Conn>, b: set<Conn>, c: set<Conn>)
    ensures (a + b) + c == a + (b + c)
    ensures a + {} == a
  {
  }

  lemma ScanNext(before: seq<Conn>, seen: seq<ConnState>, n: nat, was: set<Conn>,
                 conns: seq<Conn>, size: int, closed: set<Conn>)
    requires n < |before| == |seen| && !seen[n].Ready?
    requires ScanAt(before, seen, n + 1, was, conns, size, closed)
    ensures n < |conns|
    ensures if Broken(seen[n])
      then ScanAt(before, seen, n, was, conns[..n] + conns[n + 1..], size - 1, closed + {conns[n]})
      else ScanAt(before, seen, n, was, conns, size, closed)
  {
    ScannedStep(before, seen, n);
    ScanUnfold(before, seen, n);
    hide Scanned, BrokenFrom, LastReady, Broken;
    UnionOnwards(was, BrokenFrom(before, seen, n + 1), {before[n]});
    UnionOnwards(BrokenFrom(before, seen, n + 1), {}, {});
  }

  lemma ScanEnd(before: seq<Conn>, seen: seq<ConnState>, r: int, was: set<Conn>,
                conns: seq<Conn>, size: int, closed: set<Conn>)
    requires -1 <= r < |seen| == |before| && NoDup(before) && (r >= 0 ==> seen[r].Ready?)
    requires ScanAt(before, seen, r + 1, was, conns, size, closed)
    ensures r == LastReady(seen, |seen|)
    ensures conns == Scanned(before, seen, r + 1) && size == |conns| <= |before| && NoDup(conns)
    ensures closed == was + BrokenFrom(before, seen, r + 1)
  {
    ScannedFacts(before, seen, r + 1);
    assert LastReady(seen, r + 1) == r;
  }

  lemma {:induction false} ScannedFacts(conns: seq<Conn>, seen: seq<ConnState>, n: nat)
    requires n <= |conns| == |seen| && NoDup(conns)
    ensures NoDup(Scanned(conns, seen, n)) && |Scanned(conns, seen, n)| <= |conns|
    decreases |conns| - n
  {
    if n == |conns| {
      assert Scanned(conns, seen, n) == conns;
    } else {
      hide Survivors, Scanned, NoDup;
      ScannedFacts(conns, seen, n + 1);
      ScannedStep(conns, seen, n);
      NoDupWithout(Scanned(conns, seen, n + 1), n);
    }
  }

  lemma NoDupWithout(s: seq<Conn>, n: nat)
    requires NoDup(s) && n < |s|
    ensures NoDup(s[..n] + s[n + 1..])
  {
    var t := s[..n] + s[n + 1..];
    forall i, j | 0 <= i < j < |t| ensures t[i] != t[j] {
      assert t[i] == s[if i < n then i else i + 1] && t[j] == s[if j < n then j else j + 1];
    }
  }

  datatype Got = Reused(conn: Conn) | Dialled(conn: Conn) | DialFailed

  class ConnectionPool {
    var connections: seq<Conn>
    var maxSize: nat
    var currentSize: int
    /** The handles this pool has closed. */
    var closed: set<Conn>

    /** The counter is the list's length, within the limit, and no connection is held twice. */
    ghost predicate Valid()
      reads this
    {
      currentSize == |connections| <= maxSize && maxSize > 0 && NoDup(connections)
    }

    constructor (wanted: int)
      ensures Valid() && connections == [] && closed == {} && maxSize == if wanted <= 0 then 10 else wanted
    {
      connections, closed := [], {};
      maxSize := if wanted <= 0 then 10 else wanted;
      currentSize := 0;
    }

    /** A failed dial adds nothing. */
    method CreateConnection(dial: Option<Conn>) returns (got: Got)
      requires dial.Some? ==> dial.value !in connections
      modifies this`connections, this`currentSize
      ensures old(Valid() && currentSize < maxSize) ==> Valid()
      ensures got == if dial.Some? then Dialled(dial.value) else DialFailed
      ensures connections == old(connections) + if dial.Some? then [dial.value] else []
      ensures currentSize == old(currentSize) + if dial.Some? then 1 else 0
    {
      if dial.None? { return DialFailed; }
      connections := connections + [dial.value];
      currentSize := currentSize + 1;
      got := Dialled(dial.value);
    }

    /** Closes connection i and takes it out of the list in place. */
    method Drop(i: nat)
      requires i < |connections|
      modifies this`connections, this`currentSize, this`closed
      ensures connections == old(connections)[..i] + old(connections)[i + 1..]
      ensures currentSize == old(currentSize) - 1 && closed == old(closed) + {old(connections)[i]}
    {
      closed := closed + {connections[i]};
      connections := connections[..i] + connections[i + 1..];
      currentSize := currentSize - 1;
    }

    /** The backward scan: drops and closes broken connections until it meets a ready one, whose position it returns. */
    method Scan(seen: seq<ConnState>) returns (r: int)
      requires Valid() && |seen| == |connections|
      modifies this`connections, this`currentSize, this`closed
      ensures Valid() && r == LastReady(seen, |seen|)
      ensures connections == Scanned(old(connections), seen, r + 1)
      ensures closed == old(closed) + BrokenFrom(old(connections), seen, r + 1)
    {
      ghost var before, was := connections, closed;
      r := |connections| - 1;
      ScanStart(before, seen, was);
      hide ScanAt, Scanned, NoDup, BrokenFrom, LastReady, Broken;
      while r >= 0 && !seen[r].Ready?
        invariant -1 <= r < |before| == |seen|
        invariant ScanAt(before, seen, r + 1, was, connections, currentSize, closed)
      {
        ScanNext(before, seen, r, was, connections, currentSize, closed);
        if Broken(seen[r]) { Drop(r); }
        r := r - 1;
      }
      ScanEnd(before, seen, r, was, connections, currentSize, closed);
    }

    /**
     * seen[i] is the state the scan reads from connection i. A ready connection, the highest one, is reused
     * without dialling. Otherwise all broken ones are gone; with room left there is one dial, without it the first
     * survivor is handed out. The source's last branch, dialling because the pool is empty, is unreachable.
     */
    method GetConnection(seen: seq<ConnState>, dial: Option<Conn>) returns (got: Got)
      requires Valid() && |seen| == |connections|
      requires dial.Some? ==> dial.value !in connections
      modifies this`connections, this`currentSize, this`closed
      ensures Valid()
      ensures closed == old(closed) + BrokenFrom(old(connections), seen, LastReady(seen, |seen|) + 1)
      ensures var r := LastReady(seen, |seen|); r >= 0 ==>
        && got == Reused(old(connections)[r])
        && connections == Scanned(old(connections), seen, r + 1)
      ensures LastReady(seen, |seen|) < 0 ==>
        var kept := Survivors(old(connections), seen, 0);
        if |kept| < maxSize
        then && got == (if dial.Some? then Dialled(dial.value) else DialFailed)
             && connections == kept + (if dial.Some? then [dial.value] else [])
        else kept != [] && got == Reused(kept[0]) && connections == kept == old(connections)
    {
      ghost var before := connections;
      var r := Scan(seen);
      if r >= 0 {
        return Reused(connections[r]);
      }
      SurvivorsShort(before, seen, 0);
      assert connections == Survivors(before, seen, 0) && before[0..] == before;
      if currentSize < maxSize {
        SurvivorsFrom(before, seen, 0);
        got := CreateConnection(dial);
        return;
      }
      got := Reused(connections[0]);
    }

    /** Closes every connection and empties the pool. */
    method Close()
      requires Valid()
      modifies this`connections, this`currentSize, this`closed
      ensures Valid() && connections == [] && closed == old(closed) + Elements(old(connections))
    {
      ElementsEmpty(connections[..0]);
      for i := 0 to |connections|
        invariant connections == old(connections)
        invariant closed == old(closed) + Elements(connections[..i])
      {
        assert connections[..i + 1] == connections[..i] + [connections[i]];
        ElementsSnoc(connections[..i], connections[i]);
        closed := closed + {connections[i]};
      }
      assert connections[..|connections|] == connections;
      connections := [];
      currentSize := 0;
    }

    method Size() returns (n: int)
      requires Valid()
      ensures n == |connections|
    {
      n := currentSize;
    }
  }

  lemma {:induction false} SurvivorsFrom(conns: seq<Conn>, seen: seq<ConnState>, i: nat)
    requires i <= |conns| == |seen|
    ensures forall c :: c in Survivors(conns, seen, i) ==> c in conns
    decreases |conns| - i
  {
    if i < |conns| {
      SurvivorsFrom(conns, seen, i + 1);
      SurvivorsUnfold(conns, seen, i);
      hide Survivors;
    }
  }
}
