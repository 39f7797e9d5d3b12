/** The throttled save protocol with every thread interleaving: callers, the timer and writers of the file. */
module Persistence {
  import opened Lists
  import opened Records
  import opened DnsPools

  type Content = map<Domain, Record>

  /**
   * pending counts callers between their change of memory and their persist(); writers are the snapshots of
   * persistNow calls that have read memory but not yet renamed their temporary file.
   */
  datatype Store = Store(mem: Content, file: Option<Content>, armed: bool, pending: nat, writers: seq<Content>)

  datatype Action =
    | Change(after: Content)
    | Persist
    | Fire
    | PersistNow
    | Close
    | Rename(writer: nat)

  /** persistNow reads memory; with no records at all it returns without writing. */
  function Snapshot(s: Store): Store {
    if s.mem == map[] then s else s.(writers := s.writers + [s.mem])
  }

  ghost predicate Step(s: Store, a: Action, t: Store) {
    match a
    case Change(after) => after != map[] && t == s.(mem := after, pending := s.pending + 1)
    case Persist => s.pending > 0 && t == s.(armed := true, pending := s.pending - 1)
    case Fire => s.armed && t == Snapshot(s.(armed := false))
    case PersistNow => t == Snapshot(s)
    case Close => t == Snapshot(s.(armed := false))
    case Rename(i) =>
      i < |s.writers| && t == s.(file := Some(s.writers[i]), writers := s.writers[..i] + s.writers[i + 1..])
  }

  predicate StartsWrite(a: Action) {
    a.Fire? || a.PersistNow? || a.Close?
  }

  /** Every write under way is of the present memory. */
  predicate AllCurrent(s: Store) {
    forall i :: 0 <= i < |s.writers| ==> s.writers[i] == s.mem
  }

  /**
   * A write starts beside one of an outdated snapshot only if another is still to come: a caller is on its way to
   * persist(), or the timer stays armed, which PersistNow does not touch.
   */
  predicate Safe(s: Store, a: Action) {
    StartsWrite(a) ==> AllCurrent(s) || s.pending > 0 || (a.PersistNow? && s.armed)
  }

  ghost predicate Run(s: seq<Store>, acts: seq<Action>) {
    && |s| == |acts| + 1
    && (forall i :: 0 <= i < |acts| ==> Step(s[i], acts[i], s[i + 1]))
  }

  predicate Quiet(s: Store) {
    s.pending == 0 && !s.armed && s.writers == []
  }

  /** Memory as loaded from the file, or empty without one; nothing going on. */
  ghost predicate Start(s: Store) {
    Quiet(s) && FileAgrees(s.file, s.mem)
  }

  /** Whatever the file lacks is still with a caller, behind an armed timer, or in all the writes under way. */
  ghost predicate NothingLost(s: Store) {
    && (s.pending > 0 || s.armed || (if s.writers == [] then FileAgrees(s.file, s.mem) else AllCurrent(s)))
    && EmptyIsSaved(s)
  }

  /** An empty memory was never anything else, and the file agrees. */
  ghost predicate EmptyIsSaved(s: Store) {
    s.mem == map[] ==> s.writers == [] && FileAgrees(s.file, s.mem)
  }

  lemma StepKeepsNothingLost(s: Store, a: Action, t: Store)
    requires Step(s, a, t) && Safe(s, a) && NothingLost(s)
    ensures NothingLost(t)
  {
  }

  /**
   * If every start of a write is safe, then in every reachable state with no caller between its change and its
   * persist() and no write under way, memory differs from the file only behind an armed timer.
   */
  lemma {:induction false} ArmedOrSaved(s: seq<Store>, acts: seq<Action>, i: nat)
    requires Run(s, acts) && Start(s[0]) && i <= |acts|
    requires forall j :: 0 <= j < |acts| ==> Safe(s[j], acts[j])
    ensures NothingLost(s[i])
    ensures s[i].pending == 0 && s[i].writers == [] && !FileAgrees(s[i].file, s[i].mem) ==> s[i].armed
    ensures Quiet(s[i]) ==> FileAgrees(s[i].file, s[i].mem)
  {
    if i > 0 {
      ArmedOrSaved(s, acts, i - 1);
      hide NothingLost;
      StepKeepsNothingLost(s[i - 1], acts[i - 1], s[i]);
    }
  }

  // ---------------------------------------------------------------- overlapping writes

  /** d starts with s and lets the writes under way finish, in some order. */
  ghost predicate Drains(s: Store, d: seq<Store>, acts: seq<Action>) {
    && Run(d, acts) && d[0] == s
    && (forall i :: 0 <= i < |acts| ==> acts[i].Rename?)
    && d[|acts|].writers == []
  }

  /** Whatever the order in which the writes under way finish, the file ends equal to memory. */
  ghost predicate SettlesSaved(s: Store) {
    forall d: seq<Store>, acts: seq<Action> :: Drains(s, d, acts) ==> FileAgrees(d[|acts|].file, s.mem)
  }

  /** Some order of finishing leaves writer i's snapshot in the file. */
  lemma {:induction false} LastWriterStays(s: Store, i: nat) returns (d: seq<Store>, acts: seq<Action>)
    requires i < |s.writers|
    ensures Drains(s, d, acts) && d[|acts|].file == Some(s.writers[i]) && d[|acts|].mem == s.mem
    decreases |s.writers|
  {
    var j := if |s.writers| == 1 then 0 else if i == 0 then 1 else 0;
    var t := s.(file := Some(s.writers[j]), writers := s.writers[..j] + s.writers[j + 1..]);
    assert Step(s, Rename(j), t);
    if |s.writers| == 1 {
      d, acts := [s, t], [Rename(0)];
    } else {
      var rest, more := LastWriterStays(t, if i == 0 then 0 else i - 1);
      d, acts := [s] + rest, [Rename(j)] + more;
      DrainFrom(s, j, t, rest, more);
    }
  }

  lemma DrainFrom(s: Store, j: nat, t: Store, d: seq<Store>, acts: seq<Action>)
    requires Step(s, Rename(j), t) && Drains(t, d, acts)
    ensures Drains(s, [s] + d, [Rename(j)] + acts)
    ensures ([s] + d)[|[Rename(j)] + acts|] == d[|acts|]
  {
    hide Step;
    var e, more := [s] + d, [Rename(j)] + acts;
    forall i | 0 <= i < |more| ensures Step(e[i], more[i], e[i + 1]) && more[i].Rename? {
      if i > 0 { assert e[i] == d[i - 1] && more[i] == acts[i - 1] && e[i + 1] == d[i]; }
    }
  }

  /** While only current snapshots are being written, finishing them in any order leaves memory in the file. */
  lemma {:induction false} CurrentStays(s: Store, d: seq<Store>, acts: seq<Action>, i: nat)
    requires Drains(s, d, acts) && i <= |acts|
    requires AllCurrent(s)
    ensures AllCurrent(d[i]) && d[i].mem == s.mem
    ensures d[i].file == if i == 0 then s.file else Some(s.mem)
  {
    if i > 0 {
      CurrentStays(s, d, acts, i - 1);
      assert Step(d[i - 1], acts[i - 1], d[i]);
    }
  }

  /** With writes under way, every order of finishing ends saved exactly when all of them are of the present memory. */
  lemma SettlesSavedExactly(s: Store)
    requires s.writers != []
    ensures SettlesSaved(s) <==> AllCurrent(s)
  {
    if SettlesSaved(s) {
      forall i | 0 <= i < |s.writers| ensures s.writers[i] == s.mem {
        var d, acts := LastWriterStays(s, i);
        assert FileAgrees(d[|acts|].file, s.mem);
      }
    }
    if AllCurrent(s) {
      forall d: seq<Store>, acts: seq<Action> | Drains(s, d, acts) ensures FileAgrees(d[|acts|].file, s.mem) {
        CurrentStays(s, d, acts, |acts|);
        assert d[|acts|] != s;
      }
    }
  }

  /**
   * After the start of a write of a non-empty memory, every order of finishing ends with memory in the file exactly
   * when no outdated write was under way.
   */
  lemma StartSettlesExactly(s: Store, a: Action, t: Store)
    requires Step(s, a, t) && StartsWrite(a) && s.mem != map[]
    ensures SettlesSaved(t) <==> AllCurrent(s)
  {
    assert t.writers == s.writers + [s.mem];
    SettlesSavedExactly(t);
    if AllCurrent(t) {
      forall i | 0 <= i < |s.writers| ensures s.writers[i] == s.mem {
        assert t.writers[i] == s.writers[i];
      }
    }
  }

  /** If finishing the writes under way leaves nothing going on, the file ends equal to memory. */
  ghost predicate SettlesQuiet(s: Store) {
    forall d: seq<Store>, acts: seq<Action> :: Drains(s, d, acts) && Quiet(d[|acts|]) ==>
      FileAgrees(d[|acts|].file, s.mem)
  }

  /** Finishing writes neither arms nor disarms the timer, and no caller comes or goes. */
  lemma {:induction false} DrainKeepsRest(s: Store, d: seq<Store>, acts: seq<Action>, i: nat)
    requires Drains(s, d, acts) && i <= |acts|
    ensures d[i].armed == s.armed && d[i].pending == s.pending
  {
    if i > 0 {
      DrainKeepsRest(s, d, acts, i - 1);
      assert Step(d[i - 1], acts[i - 1], d[i]);
    }
  }

  /**
   * A start of a write of a non-empty memory can lose an update for good, some order of finishing leaving an outdated
   * file and nothing that would correct it, exactly when it is not safe: ArmedOrSaved needs of each start what it asks.
   */
  lemma SafeExactly(s: Store, a: Action, t: Store)
    requires Step(s, a, t) && StartsWrite(a) && s.mem != map[]
    ensures SettlesQuiet(t) <==> Safe(s, a)
  {
    StartSettlesExactly(s, a, t);
    assert t.armed <==> a.PersistNow? && s.armed;
    assert t.pending == s.pending;
    hide Step;
    if t.armed || t.pending > 0 {
      forall d: seq<Store>, acts: seq<Action> | Drains(t, d, acts) ensures !Quiet(d[|acts|]) {
        DrainKeepsRest(t, d, acts, |acts|);
      }
      assert SettlesQuiet(t);
    } else {
      forall d: seq<Store>, acts: seq<Action> | Drains(t, d, acts) ensures Quiet(d[|acts|]) {
        DrainKeepsRest(t, d, acts, |acts|);
      }
      assert SettlesQuiet(t) <==> SettlesSaved(t);
    }
  }

  /** The program's own case: a merge arms the timer and PersistNow follows, while an older snapshot is being written. */
  lemma PersistNowBesideOutdated(m1: Content, m2: Content) returns (s: seq<Store>, acts: seq<Action>)
    requires m1 != map[] && m2 != map[] && m1 != m2
    ensures Run(s, acts) && Start(s[0])
    ensures forall j :: 0 <= j < |acts| ==> Safe(s[j], acts[j])
    ensures |acts| > 0 && acts[|acts| - 1] == PersistNow && !AllCurrent(s[|acts| - 1])
  {
    var s0 := Store(map[], None, false, 0, []);
    var s1 := Store(m1, None, false, 1, []);
    var s2 := Store(m1, None, true, 0, []);
    var s3 := Store(m1, None, false, 0, [m1]);
    var s4 := Store(m2, None, false, 1, [m1]);
    var s5 := Store(m2, None, true, 0, [m1]);
    var s6 := Store(m2, None, true, 0, [m1, m2]);
    s := [s0, s1, s2, s3, s4, s5, s6];
    acts := [Change(m1), Persist, Fire, Change(m2), Persist, PersistNow];
    assert [m1] + [m2] == [m1, m2];
    assert s5.writers[0] != s5.mem;
    assert Step(s0, acts[0], s1) && Step(s1, acts[1], s2) && Step(s2, acts[2], s3);
    assert Step(s3, acts[3], s4) && Step(s4, acts[4], s5) && Step(s5, acts[5], s6);
  }

  /** From the start, memory stays unsaved-and-empty only as long as nothing was ever written. */
  lemma {:induction false} EmptyStaysSaved(s: seq<Store>, acts: seq<Action>, i: nat)
    requires Run(s, acts) && Start(s[0]) && i <= |acts|
    ensures EmptyIsSaved(s[i])
  {
    if i > 0 {
      EmptyStaysSaved(s, acts, i - 1);
      assert Step(s[i - 1], acts[i - 1], s[i]);
    }
  }

  /**
   * In every reachable state, Close ends with memory in the file whatever the order of finishing, armed timer or
   * not, exactly when no write of an outdated snapshot is under way as it is called.
   */
  lemma CloseSavesExactly(s: seq<Store>, acts: seq<Action>, i: nat, t: Store)
    requires Run(s, acts) && Start(s[0]) && i <= |acts|
    requires Step(s[i], Close, t)
    ensures t.mem == s[i].mem && !t.armed
    ensures SettlesSaved(t) <==> AllCurrent(s[i])
  {
    EmptyStaysSaved(s, acts, i);
    if s[i].mem == map[] {
      forall d: seq<Store>, more: seq<Action> | Drains(t, d, more) ensures FileAgrees(d[|more|].file, t.mem) {
        CurrentStays(t, d, more, |more|);
      }
    } else {
      StartSettlesExactly(s[i], Close, t);
    }
  }

  /** Overlapping writes can lose an update for good: the older snapshot is renamed last and no timer is armed. */
  lemma OverlapLosesUpdate(m1: Content, m2: Content) returns (s: seq<Store>, acts: seq<Action>)
    requires m1 != map[] && m2 != map[] && m1 != m2
    ensures Run(s, acts) && Start(s[0])
    ensures Quiet(s[|acts|]) && s[|acts|].mem == m2 && s[|acts|].file == Some(m1)
  {
    var s0 := Store(map[], None, false, 0, []);
    var s1 := Store(m1, None, false, 1, []);
    var s2 := Store(m1, None, true, 0, []);
    var s3 := Store(m1, None, false, 0, [m1]);
    var s4 := Store(m2, None, false, 1, [m1]);
    var s5 := Store(m2, None, true, 0, [m1]);
    var s6 := Store(m2, None, false, 0, [m1, m2]);
    var s7 := Store(m2, Some(m2), false, 0, [m1]);
    var s8 := Store(m2, Some(m1), false, 0, []);
    s := [s0, s1, s2, s3, s4, s5, s6, s7, s8];
    acts := [Change(m1), Persist, Fire, Change(m2), Persist, Fire, Rename(1), Rename(0)];
    assert [m1] + [m2] == [m1, m2];
    assert [m1, m2][..1] + [m1, m2][2..] == [m1];
    assert [m1][..0] + [m1][1..] == [];
    assert Step(s0, acts[0], s1) && Step(s1, acts[1], s2) && Step(s2, acts[2], s3) && Step(s3, acts[3], s4);
    assert Step(s4, acts[4], s5) && Step(s5, acts[5], s6) && Step(s6, acts[6], s7) && Step(s7, acts[7], s8);
  }
}
