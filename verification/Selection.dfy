/** What a selection answers, stores and leaves, from the record as it was: known domains and first contacts. */
module Selection {
  import opened Lists
  import opened Records
  import opened Rotation
  import opened PoolSpec
  import opened Refresh

  /** x counts as a candidate of its family: listed there, or whitelisted and of that family. */
  predicate Offers4(r: Record, x: Ip) { x in r.v4 || (x in r.white && x.V4?) }
  predicate Offers6(r: Record, x: Ip) { x in r.v6 || (x in r.white && x.V6?) }

  /** Some candidate of an allowed family is not blacklisted. */
  ghost predicate CanPick(r: Record, env: Env) {
    exists x :: x !in r.black && ((env.allowV4 && Offers4(r, x)) || (env.allowV6 && Offers6(r, x)))
  }

  lemma FoldOffers(a: Record, b: Record, x: Ip)
    requires IsFold(a, b)
    ensures x in b.v4 <==> Offers4(a, x)
    ensures x in b.v6 <==> Offers6(a, x)
    ensures b.black == a.black && b.white == a.white
  {
    FoldNormalises(a, b);
    assert x in b.v4 <==> x in Elements(b.v4);
    assert x in b.v6 <==> x in Elements(b.v6);
  }

  lemma FoldCanPick(a: Record, b: Record, env: Env)
    requires IsFold(a, b)
    ensures CanPick(a, env) <==> CanPick(b, env)
    ensures CanPick(a, env) <==> Available(b, env) != []
  {
    AvailableExact(b, env);
    forall x ensures (x in b.v4 <==> Offers4(a, x)) && (x in b.v6 <==> Offers6(a, x)) && b.black == a.black
      ensures Offers4(b, x) <==> Offers4(a, x)
      ensures Offers6(b, x) <==> Offers6(a, x)
    {
      FoldOffers(a, b, x);
    }
    hide IsFold, Available;
    var list := Available(b, env);
    if list != [] {
      var p := list[0];
      assert p in list && Pickable(b, env, p);
      assert if p.isV6 then Offers6(a, p.ip) else Offers4(a, p.ip);
    }
    if CanPick(a, env) {
      var x :| x !in a.black && ((env.allowV4 && Offers4(a, x)) || (env.allowV6 && Offers6(a, x)));
      var p := Pick(x, !(env.allowV4 && Offers4(a, x)));
      assert Pickable(b, env, p) && p in list;
    }
  }

  /** The record holds, in each family, exactly what r offered, and otherwise differs from r in the index only. */
  ghost predicate Settled(r: Record, r': Record) {
    && (forall x :: x in r'.v4 <==> Offers4(r, x))
    && (forall x :: x in r'.v6 <==> Offers6(r, x))
    && r.v4 <= r'.v4 && r.v6 <= r'.v6
    && r' == r.(v4 := r'.v4, v6 := r'.v6, next4 := r'.next4)
  }

  lemma FoldSettles(a: Record, b: Record, next4: nat)
    requires IsFold(a, b.(next4 := a.next4)) && b.next4 == next4
    ensures Settled(a, b)
  {
    var c := b.(next4 := a.next4);
    FoldNormalises(a, c);
    forall x ensures (x in b.v4 <==> Offers4(a, x)) && (x in b.v6 <==> Offers6(a, x)) {
      FoldOffers(a, c, x);
    }
  }

  /**
   * A batch of a positive size is answered exactly when the record, stored or just resolved, has a candidate to pick.
   * It then has that size and holds only such candidates; any other batch leaves the index alone.
   */
  lemma BatchAnswersExactly(m: map<Domain, Record>, d: Domain, count: int, env: Env, ans: Answer,
                            m': map<Domain, Record>, out: Option<seq<Pick>>)
    requires BatchStep(m, d, count, env, ans, m', out)
    ensures out.Some? <==> count > 0 && CanPick(Resolved(m, d, ans), env)
    ensures out.Some? ==> |out.value| == count && d in m' && forall p :: p in out.value ==> Pickable(m'[d], env, p)
    ensures count <= 0 ==> m' == m
    ensures count > 0 && d in m ==> d in m' && Settled(m[d], m'[d])
    ensures out.None? && d in m' ==> m'[d].next4 == Resolved(m, d, ans).next4
  {
    var base := Resolved(m, d, ans);
    if count > 0 {
      if d in m || !ans.Fails() {
        var folded := m'[d].(next4 := base.next4);
        FoldCanPick(base, folded, env);
        FoldSettles(base, m'[d], m'[d].next4);
        hide IsFold, Available, Saved, CanPick, Cycle;
        if out.Some? { PicksPickable(folded, env, base.next4, out.value); }
      } else {
        assert !CanPick(base, env);
      }
    }
  }

  lemma PicksPickable(r: Record, env: Env, start: nat, picks: seq<Pick>)
    requires Available(r, env) != [] && picks == Cycle(Available(r, env), start, |picks|)
    ensures forall p :: p in picks ==> Pickable(r, env, p)
  {
    AvailableExact(r, env);
    hide Available;
    forall p | p in picks ensures Pickable(r, env, p) {
      var i :| 0 <= i < |picks| && picks[i] == p;
      assert p == At(Available(r, env), start + i);
    }
  }

  lemma SingleAnswersExactly(m: map<Domain, Record>, d: Domain, env: Env, ans: Answer,
                             m': map<Domain, Record>, out: Option<Pick>)
    requires SingleStep(m, d, env, ans, m', out)
    ensures out.Some? <==> CanPick(Resolved(m, d, ans), env)
    ensures out.Some? ==> d in m' && Pickable(m'[d], env, out.value)
    ensures d in m ==> d in m' && Settled(m[d], m'[d])
    ensures out.None? && d in m' ==> m'[d].next4 == Resolved(m, d, ans).next4
  {
    var base := Resolved(m, d, ans);
    if d in m || !ans.Fails() {
      var folded := m'[d].(next4 := base.next4);
      FoldCanPick(base, folded, env);
      FoldSettles(base, m'[d], m'[d].next4);
      AvailableExact(folded, env);
      hide IsFold, Available, Saved;
      if out.Some? { assert Pickable(folded, env, out.value); }
    } else {
      assert !CanPick(base, env);
    }
  }

  // ---------------------------------------------------------------- first contact

  /** What a first contact stores for a domain: nothing if the resolver found nothing, else what it found, in order. */
  ghost predicate Stored(m: map<Domain, Record>, d: Domain, ans: Answer, m': map<Domain, Record>) {
    && (d in m' <==> ans.v4 != [] || ans.v6 != [])
    && (d !in m' ==> m' == m)
    && (d in m' ==>
         && m' == m[d := m'[d]]
         && m'[d].v4 == ans.v4 && m'[d].v6 == ans.v6
         && m'[d].black == {} && m'[d].white == {} && m'[d].ipLatency == map[]
         && m'[d].updatedAt == ans.at)
  }

  lemma ResolvedFirst(m: map<Domain, Record>, d: Domain, ans: Answer)
    requires d !in m
    ensures Resolved(m, d, ans) == EMPTY.(v4 := ans.v4, v6 := ans.v6, updatedAt := ans.at)
  {
  }

  lemma FirstOffers(ans: Answer, env: Env)
    ensures CanPick(EMPTY.(v4 := ans.v4, v6 := ans.v6, updatedAt := ans.at), env) <==>
      (env.allowV4 && ans.v4 != []) || (env.allowV6 && ans.v6 != [])
  {
    var r := EMPTY.(v4 := ans.v4, v6 := ans.v6, updatedAt := ans.at);
    if env.allowV4 && ans.v4 != [] { assert Offers4(r, ans.v4[0]); }
    if env.allowV6 && ans.v6 != [] { assert Offers6(r, ans.v6[0]); }
  }

  /**
   * A batch for an unknown domain stores what the resolver found, one family being enough, and answers exactly when
   * a family it found is allowed; the batch starts with the first candidate.
   */
  lemma FirstBatch(m: map<Domain, Record>, d: Domain, count: int, env: Env, ans: Answer,
                   m': map<Domain, Record>, out: Option<seq<Pick>>)
    requires BatchStep(m, d, count, env, ans, m', out) && d !in m && count > 0
    ensures Stored(m, d, ans, m')
    ensures out.Some? <==> (env.allowV4 && ans.v4 != []) || (env.allowV6 && ans.v6 != [])
    ensures out.Some? ==> out.value == Cycle(Available(m'[d], env), 0, count)
    ensures out.Some? ==> m'[d].next4 == count % |Available(m'[d], env)|
    ensures out.None? && d in m' ==> m'[d].next4 == 0
  {
    BatchAnswersExactly(m, d, count, env, ans, m', out);
    FirstOffers(ans, env);
    ResolvedFirst(m, d, ans);
    var base := Resolved(m, d, ans);
    if ans.v4 != [] || ans.v6 != [] {
      FoldIsNoop(base, m'[d].(next4 := base.next4));
      hide IsFold, Saved;
      SameCandidates(m'[d], base, env);
    }
  }

  lemma SameCandidates(a: Record, b: Record, env: Env)
    requires a.v4 == b.v4 && a.v6 == b.v6 && a.black == b.black
    ensures Available(a, env) == Available(b, env)
  {
  }

  lemma FirstSingle(m: map<Domain, Record>, d: Domain, env: Env, ans: Answer,
                    m': map<Domain, Record>, out: Option<Pick>)
    requires SingleStep(m, d, env, ans, m', out) && d !in m
    ensures Stored(m, d, ans, m')
    ensures out.Some? <==> (env.allowV4 && ans.v4 != []) || (env.allowV6 && ans.v6 != [])
    ensures out.Some? ==> Available(m'[d], env) != [] && out.value == Available(m'[d], env)[0]
    ensures out.Some? ==> m'[d].next4 == 1 % |Available(m'[d], env)|
    ensures out.None? && d in m' ==> m'[d].next4 == 0
  {
    SingleAnswersExactly(m, d, env, ans, m', out);
    FirstOffers(ans, env);
    ResolvedFirst(m, d, ans);
    var base := Resolved(m, d, ans);
    if ans.v4 != [] || ans.v6 != [] {
      FoldIsNoop(base, m'[d].(next4 := base.next4));
      hide IsFold, Saved;
      SameCandidates(m'[d], base, env);
    }
  }

  // ---------------------------------------------------------------- rotation order

  lemma {:induction false} UsableInOrder(xs: seq<Ip>, black: set<Ip>, isV6: bool, i: nat, j: nat) returns (p: nat, q: nat)
    requires i < j < |Usable(xs, black, isV6)|
    ensures p < q < |xs|
    ensures Usable(xs, black, isV6)[i] == Pick(xs[p], isV6) && Usable(xs, black, isV6)[j] == Pick(xs[q], isV6)
  {
    var n := |xs| - 1;
    var front := Usable(xs[..n], black, isV6);
    if j < |front| {
      p, q := UsableInOrder(xs[..n], black, isV6, i, j);
    } else {
      q := n;
      UsableExact(xs[..n], black, isV6);
      assert front[i] in front;
      p :| 0 <= p < n && xs[..n][p] == front[i].ip;
    }
  }

  /**
   * Of two entries of the rotation, the earlier one is of the family in front (IPv6, if it is allowed and either
   * preferred or alone), or both are of one family and the earlier one is listed earlier.
   */
  lemma RotationOrder(r: Record, env: Env, i: nat, j: nat) returns (p: nat, q: nat)
    requires i < j < |Available(r, env)|
    ensures var a, b := Available(r, env)[i], Available(r, env)[j];
      if a.isV6 != b.isV6 then
        a.isV6 == (env.allowV6 && (env.preferV6 || !env.allowV4))
      else
        var list := if a.isV6 then r.v6 else r.v4;
        p < q < |list| && list[p] == a.ip && list[q] == b.ip
  {
    AvailableInParts(r, env);
    p, q := 0, 0;
    var n := |Front(r, env)|;
    hide Available, Front, Back;
    if j < n {
      p, q := FrontInOrder(r, env, i, j);
    } else if i >= n {
      p, q := BackInOrder(r, env, i - n, j - n);
    } else {
      FrontFamily(r, env, i);
      BackFamily(r, env, j - n);
    }
  }

  lemma FrontFamily(r: Record, env: Env, i: nat)
    requires i < |Front(r, env)|
    ensures Front(r, env)[i].isV6 == SixFirst(env)
  {
    assert Front(r, env)[i] in Front(r, env);
    UsableExact(r.v4, r.black, false);
    UsableExact(r.v6, r.black, true);
    hide Usable;
  }

  lemma BackFamily(r: Record, env: Env, i: nat)
    requires i < |Back(r, env)|
    ensures Back(r, env)[i].isV6 == !SixFirst(env)
  {
    assert Back(r, env)[i] in Back(r, env);
    UsableExact(r.v4, r.black, false);
    UsableExact(r.v6, r.black, true);
    hide Usable;
  }

  lemma FrontInOrder(r: Record, env: Env, i: nat, j: nat) returns (p: nat, q: nat)
    requires i < j < |Front(r, env)|
    ensures var list := if SixFirst(env) then r.v6 else r.v4;
      && p < q < |list|
      && Front(r, env)[i] == Pick(list[p], SixFirst(env)) && Front(r, env)[j] == Pick(list[q], SixFirst(env))
  {
    hide Usable;
    p, q := InPart(r, SixFirst(env), i, j);
  }

  lemma BackInOrder(r: Record, env: Env, i: nat, j: nat) returns (p: nat, q: nat)
    requires i < j < |Back(r, env)|
    ensures var list := if SixFirst(env) then r.v4 else r.v6;
      && p < q < |list|
      && Back(r, env)[i] == Pick(list[p], !SixFirst(env)) && Back(r, env)[j] == Pick(list[q], !SixFirst(env))
  {
    hide Usable;
    p, q := InPart(r, !SixFirst(env), i, j);
  }

  lemma InPart(r: Record, isV6: bool, i: nat, j: nat) returns (p: nat, q: nat)
    requires i < j < |Usable(if isV6 then r.v6 else r.v4, r.black, isV6)|
    ensures var list := if isV6 then r.v6 else r.v4;
      && p < q < |list|
      && Usable(list, r.black, isV6)[i] == Pick(list[p], isV6) && Usable(list, r.black, isV6)[j] == Pick(list[q], isV6)
  {
    p, q := UsableInOrder(if isV6 then r.v6 else r.v4, r.black, isV6, i, j);
  }
}
