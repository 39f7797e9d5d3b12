/** Go slices as a backing array plus a length, and the in-place rewrite that other headers can see. */
module Slices {
  import opened Lists
  import opened Records

  datatype Slice = Slice(backing: array<Ip>, len: nat) {
    ghost predicate Valid() { len <= backing.Length }

    ghost function View(): seq<Ip>
      requires Valid()
      reads backing
    {
      backing[..len]
    }
  }

  /** append(s, x): in place while there is room, otherwise into a larger copy; `spare` is the runtime's choice. */
  method Append(s: Slice, x: Ip, spare: nat) returns (r: Slice)
    requires s.Valid()
    modifies s.backing
    ensures r.Valid() && r.View() == old(s.View()) + [x]
    ensures s.len < s.backing.Length ==> r.backing == s.backing
    ensures s.len < s.backing.Length ==> s.backing[..] == old(s.backing[..])[s.len := x]
    ensures s.len == s.backing.Length ==> fresh(r.backing) && s.backing[..] == old(s.backing[..])
  {
    if s.len < s.backing.Length {
      s.backing[s.len] := x;
      r := Slice(s.backing, s.len + 1);
    } else {
      var bigger := new Ip[s.len + 1 + spare](_ => x);
      for i := 0 to s.len
        invariant forall k :: 0 <= k < i ==> bigger[k] == s.backing[k]
        invariant bigger[s.len] == x
        invariant s.backing[..] == old(s.backing[..])
      {
        bigger[i] := s.backing[i];
      }
      r := Slice(bigger, s.len + 1);
    }
  }

  /**
   * head is a header taken while its array held `before`; cur restarted that array at length 0 and grew.
   * While they share the array, head sees what cur wrote; once cur moved away, the array stays full of cur's start.
   */
  ghost predicate Tracks(head: Slice, before: seq<Ip>, cur: Slice)
    reads head.backing, cur.backing
  {
    && head.Valid() && cur.Valid() && |before| == head.backing.Length
    && if cur.backing == head.backing
       then head.backing[..] == cur.View() + before[cur.len..]
       else head.backing.Length <= cur.len && head.backing[..] == cur.View()[..head.backing.Length]
  }

  lemma TracksAliasView(head: Slice, before: seq<Ip>, cur: Slice)
    requires Tracks(head, before, cur)
    ensures head.View() == AliasView(before[..head.len], cur.View())
  {
    assert head.View() == head.backing[..][..head.len];
    if cur.backing == head.backing && cur.len < head.len {
      assert before[..head.len][cur.len..] == before[cur.len..][..head.len - cur.len];
    }
  }

  method AppendTracked(head: Slice, ghost before: seq<Ip>, cur: Slice, x: Ip) returns (r: Slice)
    requires Tracks(head, before, cur)
    modifies cur.backing
    ensures Tracks(head, before, r)
    ensures r.View() == old(cur.View()) + [x]
    ensures r.backing == cur.backing || fresh(r.backing)
  {
    var spare: nat :| 0 <= spare;
    r := Append(cur, x, spare);
  }

  /** Appends the members of xs to cur, each once, in map-iteration order: any order at all. */
  method AppendSet(head: Slice, ghost before: seq<Ip>, cur: Slice, xs: set<Ip>) returns (r: Slice)
    requires Tracks(head, before, cur) && NoDup(cur.View()) && xs !! Elements(cur.View())
    modifies cur.backing
    ensures Tracks(head, before, r) && NoDup(r.View())
    ensures old(cur.View()) <= r.View()
    ensures Elements(r.View()) == old(Elements(cur.View())) + xs
    ensures r.backing == cur.backing || fresh(r.backing)
  {
    r := cur;
    var rest := xs;
    ghost var start, grown := cur.View(), cur.View();
    while rest != {}
      invariant Tracks(head, before, r)
      invariant r.View() == grown && start <= grown && NoDup(grown)
      invariant rest <= xs
      invariant Elements(grown) == Elements(start) + (xs - rest)
      invariant r.backing == cur.backing || fresh(r.backing)
      decreases |rest|
    {
      var x :| x in rest;
      GrowByMember(start, grown, xs, rest, x);
      r := AppendTracked(head, before, r, x);
      grown := grown + [x];
      rest := rest - {x};
    }
  }

  /**
   * Rebuilds a list in place: `first` in any order, then the members of `extra` that are not there yet.
   * A header taken before reads `view` afterwards.
   */
  method RebuildInPlace(list: seq<Ip>, first: set<Ip>, extra: set<Ip>) returns (merged: seq<Ip>, view: seq<Ip>)
    ensures ListsThen(merged, first, extra - first)
    ensures view == AliasView(list, merged)
  {
    hide ListsThen, AliasView;
    var spare: nat :| 0 <= spare;
    var backing := new Ip[|list| + spare](i => if 0 <= i < |list| then list[i] else Bad(""));
    var head := Slice(backing, |list|);
    ghost var before := backing[..];
    assert before[..|list|] == list;
    var cur := Slice(backing, 0);
    ElementsEmpty(cur.View());
    cur := AppendSet(head, before, cur, first);
    ghost var rebuilt := cur.View();
    cur := AppendSet(head, before, cur, extra - first);
    TracksAliasView(head, before, cur);
    merged := cur.backing[..cur.len];
    view := head.backing[..head.len];
    ListedInTwoParts(rebuilt, merged, first, extra - first);
  }

  lemma ListedInTwoParts(part: seq<Ip>, whole: seq<Ip>, first: set<Ip>, extra: set<Ip>)
    requires NoDup(whole) && part <= whole
    requires Elements(part) == first && Elements(whole) == first + extra
    ensures ListsThen(whole, first, extra)
  {
    assert part == whole[..|part|];
    ElementsSize(part);
  }
}
