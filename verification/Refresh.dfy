/** What saving a fresh resolution does to the rotation: when the next address picked is still the next one. */
module Refresh {
  import opened Lists
  import opened Records
  import opened PoolSpec
  import opened Filing

  predicate SixFirst(env: Env) {
    env.allowV6 && (env.preferV6 || !env.allowV4)
  }

  /** The candidates of the family that comes first in rotation order. */
  function Front(r: Record, env: Env): seq<Pick> {
    if SixFirst(env) then Usable(r.v6, r.black, true)
    else if env.allowV4 then Usable(r.v4, r.black, false) else []
  }

  function Back(r: Record, env: Env): seq<Pick> {
    if SixFirst(env) then if env.allowV4 then Usable(r.v4, r.black, false) else []
    else if env.allowV6 then Usable(r.v6, r.black, true) else []
  }

  lemma AvailableInParts(r: Record, env: Env)
    ensures Available(r, env) == Front(r, env) + Back(r, env)
  {
  }

  lemma {:induction false} UsableExtends(xs: seq<Ip>, ys: seq<Ip>, black: set<Ip>, isV6: bool)
    requires xs <= ys
    ensures Usable(xs, black, isV6) <= Usable(ys, black, isV6)
    decreases |ys|
  {
    if |xs| < |ys| {
      UsableExtends(xs, ys[..|ys| - 1], black, isV6);
    } else {
      assert xs == ys;
    }
  }

  /** A save only appends to each family's candidates. */
  lemma PartsExtend(prev: Record, found: Record, env: Env)
    ensures Front(prev, env) <= Front(Saved(prev, found), env)
    ensures Back(prev, env) <= Back(Saved(prev, found), env)
  {
    var r := Saved(prev, found);
    SaveKeepsOldAddsNew(prev, found);
    UsableExtends(prev.v4, r.v4, prev.black, false);
    UsableExtends(prev.v6, r.v6, prev.black, true);
  }

  /** Where entry j of front + back is found once both parts were extended. */
  function Shifted(j: nat, front: nat, grown: nat): nat
    requires front <= grown
  {
    if j < front then j else j + grown - front
  }

  lemma EntryMoves<T>(f: seq<T>, k: seq<T>, f': seq<T>, k': seq<T>, j: nat)
    requires f <= f' && k <= k' && j < |f + k|
    ensures Shifted(j, |f|, |f'|) < |f' + k'|
    ensures (f' + k')[Shifted(j, |f|, |f'|)] == (f + k)[j]
  {
  }

  /** The index a save without one of its own stores: the old one if it is inside the IPv4 list, else zero. */
  function Kept(prev: Record, found: Record): nat {
    if prev.next4 < |Saved(prev, found).v4| then prev.next4 else 0
  }

  /**
   * After a save that names no index, the next address picked is the one that was next before, exactly when the
   * index kept points at a place of that address. Its place is the old one, moved back by the new candidates of the
   * front family if it belongs to the other; there is one more only for an address filed in both lists.
   */
  lemma SaveKeepsNextPickExactly(prev: Record, found: Record, env: Env)
    requires RecordInv(prev) && NoDup(found.v4) && NoDup(found.v6) && found.next4 == 0
    requires Available(prev, env) != []
    ensures Available(Saved(prev, found), env) != []
    ensures |Front(prev, env)| <= |Front(Saved(prev, found), env)|
    ensures var r, a, b := Saved(prev, found), Available(prev, env), Available(Saved(prev, found), env);
      var place := Shifted(prev.next4 % |a|, |Front(prev, env)|, |Front(r, env)|);
      && place < |b|
      && (b[r.next4 % |b|].ip == a[prev.next4 % |a|].ip <==> b[Kept(prev, found) % |b|].ip == b[place].ip)
      && (b[r.next4 % |b|] == a[prev.next4 % |a|] <==> Kept(prev, found) % |b| == place)
      && (FiledOnce(r, env) ==>
           (b[r.next4 % |b|].ip == a[prev.next4 % |a|].ip <==> Kept(prev, found) % |b| == place))
  {
    var r := Saved(prev, found);
    var a, b, j := Available(prev, env), Available(r, env), prev.next4 % |Available(prev, env)|;
    AvailableInParts(prev, env);
    AvailableInParts(r, env);
    PartsExtend(prev, found, env);
    EntryMoves(Front(prev, env), Back(prev, env), Front(r, env), Back(r, env), j);
    SaveKeepsOldAddsNew(prev, found);
    AvailableExact(r, env);
    FiledOnceExactly(r, env);
    IndexKept(prev, found);
    hide Available, Front, Back, Saved, RecordInv, FiledOnce, Ips;
    assert NoDup(b);
    var place := Shifted(j, |Front(prev, env)|, |Front(r, env)|);
    OneIpOnePlace(b, Kept(prev, found) % |b|, place);
  }

  lemma OneIpOnePlace(a: seq<Pick>, i: nat, j: nat)
    requires i < |a| && j < |a|
    ensures NoDup(Ips(a)) ==> (a[i].ip == a[j].ip <==> i == j)
  {
    assert Ips(a)[i] == a[i].ip && Ips(a)[j] == a[j].ip;
  }

  lemma IndexKept(prev: Record, found: Record)
    requires found.next4 == 0
    ensures Saved(prev, found).next4 == Kept(prev, found)
  {
  }

  /**
   * For an index inside the candidate list, as every selection leaves it, and no address filed twice: the next pick
   * is kept exactly when the index is zero or inside the IPv4 list, and belongs to the front family unless that
   * family gained nothing.
   */
  lemma SaveAfterSelection(prev: Record, found: Record, env: Env)
    requires RecordInv(prev) && NoDup(found.v4) && NoDup(found.v6) && found.next4 == 0
    requires prev.next4 < |Available(prev, env)|
    ensures Available(Saved(prev, found), env) != []
    ensures var r, a, b := Saved(prev, found), Available(prev, env), Available(Saved(prev, found), env);
      var stays := (prev.next4 == 0 || prev.next4 < |r.v4|) &&
                   (prev.next4 < |Front(prev, env)| || |Front(r, env)| == |Front(prev, env)|);
      && (stays ==> b[r.next4 % |b|] == a[prev.next4])
      && (FiledOnce(r, env) ==> (b[r.next4 % |b|].ip == a[prev.next4].ip <==> stays))
  {
    hide Available, Front, Back, Saved, RecordInv, NoDup, FiledOnce;
    var r := Saved(prev, found);
    SaveKeepsNextPickExactly(prev, found, env);
    PartsExtend(prev, found, env);
    AvailableInParts(prev, env);
    AvailableInParts(r, env);
    ModSmall(prev.next4, |Available(prev, env)|);
    ModSmall(Kept(prev, found), |Available(r, env)|);
  }

  lemma ModSmall(x: nat, n: nat)
    requires x < n
    ensures x % n == x
  {
  }

  lemma {:induction false} NothingNew(base: seq<Ip>, xs: seq<Ip>)
    requires Elements(xs) <= Elements(base)
    ensures Combine(base, xs) == base
  {
    ElementsEmpty(xs);
    if xs != [] {
      NothingAppended(base, xs);
    }
    ElementsEmpty(base);
  }

  lemma {:induction false} NothingAppended(base: seq<Ip>, xs: seq<Ip>)
    requires Elements(xs) <= Elements(base)
    ensures AppendNew(base, xs) == base
  {
    if xs != [] {
      var ys, x := xs[..|xs| - 1], xs[|xs| - 1];
      assert xs == ys + [x];
      ElementsSnoc(ys, x);
      NothingAppended(base, ys);
    }
  }

  /**
   * A save that finds nothing new keeps the next address exactly when the index is inside the IPv4 list or the
   * address is also the one a turn starts with.
   */
  lemma RefreshKeepsNextPickExactly(prev: Record, found: Record, env: Env)
    requires RecordInv(prev) && found.next4 == 0
    requires Elements(found.v4) <= Elements(prev.v4) && Elements(found.v6) <= Elements(prev.v6)
    requires Available(prev, env) != []
    ensures Available(Saved(prev, found), env) == Available(prev, env)
    ensures var a := Available(prev, env);
      && (a[Saved(prev, found).next4 % |a|].ip == a[prev.next4 % |a|].ip <==>
           prev.next4 < |prev.v4| || a[prev.next4 % |a|].ip == a[0].ip)
      && (FiledOnce(prev, env) ==> (a[prev.next4 % |a|].ip == a[0].ip <==> prev.next4 % |a| == 0))
  {
    hide Available, RecordInv, NoDup, Elements, BoundIndex, FiledOnce, Ips;
    NothingNew(prev.v4, found.v4);
    NothingNew(prev.v6, found.v6);
    SameListsSameCandidates(prev, Saved(prev, found), env);
    AvailableExact(prev, env);
    assert NoDup(prev.v4) && NoDup(prev.v6) by { InvNoDup(prev); }
    IndexKept(prev, found);
    FiledOnceExactly(prev, env);
    hide Saved;
    OneIpOnePlace(Available(prev, env), prev.next4 % |Available(prev, env)|, 0);
    ModSmall(0, |Available(prev, env)|);
  }

  lemma SameListsSameCandidates(a: Record, b: Record, env: Env)
    requires a.v4 == b.v4 && a.v6 == b.v6 && a.black == b.black
    ensures Available(a, env) == Available(b, env)
  {
  }

  /**
   * With IPv6 in front, a save that keeps the stored index but finds a new IPv6 address makes the rotation step
   * back: z was next, and y, picked just before, is next again.
   */
  lemma SaveCanServeAgain(x: Ip, w: Ip, y: Ip, z: Ip, u: Ip) returns (prev: Record, found: Record, env: Env)
    requires x.V6? && w.V6? && x != w
    requires y.V4? && z.V4? && u.V4? && y != z && z != u && u != y
    ensures RecordInv(prev) && NoDup(found.v4) && NoDup(found.v6) && found.next4 == 0
    ensures prev.next4 == Saved(prev, found).next4 == 2
    ensures Available(prev, env) == [Pick(x, true), Pick(y, false), Pick(z, false), Pick(u, false)]
    ensures Available(Saved(prev, found), env) ==
      [Pick(x, true), Pick(w, true), Pick(y, false), Pick(z, false), Pick(u, false)]
  {
    prev := EMPTY.(v6 := [x], v4 := [y, z, u], next4 := 2);
    found := EMPTY.(v6 := [w]);
    env := Env(true, true, true);
    assert [w][..0] == [] && [x] + [w] == [x, w];
    assert AppendNew([x], [w]) == [x, w];
    assert AppendNew([y, z, u], []) == [y, z, u];
    UsableAll([x], true);
    UsableAll([x, w], true);
    UsableAll([y, z, u], false);
  }

  lemma {:induction false} UsableAll(xs: seq<Ip>, isV6: bool)
    ensures Usable(xs, {}, isV6) == seq(|xs|, i requires 0 <= i < |xs| => Pick(xs[i], isV6))
  {
    if xs != [] {
      UsableAll(xs[..|xs| - 1], isV6);
    }
  }
}
