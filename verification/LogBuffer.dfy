/** The bounded log buffer against the full history since it was last cleared. */
module LogBuffers {

  datatype LogEntry = LogEntry(timestamp: int, level: string, message: string, fields: map<string, string>)

  /** The last n elements, or all when there are fewer. */
  function Last<T>(s: seq<T>, n: int): seq<T> {
    if n <= 0 then [] else if |s| <= n then s else s[|s| - n..]
  }

  predicate Matches(e: LogEntry, level: string) {
    level == "" || e.level == level
  }

  /** The matching entries, in order. */
  function Matching(s: seq<LogEntry>, level: string): seq<LogEntry> {
    if s == [] then [] else
      (if Matches(s[0], level) then [s[0]] else []) + Matching(s[1..], level)
  }

  /** at lists the positions in s, in order, of the entries found: those of the level asked for, or all if none is given. */
  ghost predicate Locates(s: seq<LogEntry>, level: string, found: seq<LogEntry>, at: seq<nat>) {
    && |at| == |found|
    && (forall p :: 0 <= p < |at| ==> at[p] < |s| && found[p] == s[at[p]])
    && (forall p, q :: 0 <= p < q < |at| ==> at[p] < at[q])
    && (forall k :: 0 <= k < |s| ==> (k in at <==> level == "" || s[k].level == level))
  }

  lemma LocatesNext(s: seq<LogEntry>, e: LogEntry, level: string, found: seq<LogEntry>, at: seq<nat>)
    requires Locates(s, level, found, at)
    ensures if level == "" || e.level == level then Locates(s + [e], level, found + [e], at + [|s|])
            else Locates(s + [e], level, found, at)
  {
    assert |s| !in at;
    assert forall k :: k in at + [|s|] <==> k in at || k == |s|;
  }

  /** GetEntries' filter finds exactly those, in the order of the buffer. */
  lemma {:induction false} MatchingExactly(s: seq<LogEntry>, level: string) returns (at: seq<nat>)
    ensures Locates(s, level, Matching(s, level), at)
  {
    at := [];
    if s != [] {
      var n := |s| - 1;
      at := MatchingExactly(s[..n], level);
      MatchingLast(s, n, level);
      hide Matching, Matches, Locates;
      assert s == s[..n] + [s[n]];
      LocatesNext(s[..n], s[n], level, Matching(s[..n], level), at);
      if level == "" || s[n].level == level { at := at + [n]; }
    }
  }

  lemma MatchingLast(s: seq<LogEntry>, n: nat, level: string)
    requires |s| == n + 1
    ensures Matching(s, level) ==
      if level == "" || s[n].level == level then Matching(s[..n], level) + [s[n]] else Matching(s[..n], level)
  {
    MatchingConcat(s[..n], [s[n]], level);
    MatchingOne(s[n], level);
    hide Matching, Matches;
    assert s == s[..n] + [s[n]];
    assert Matching(s[..n], level) + [] == Matching(s[..n], level);
  }

  lemma JoinOnwards(a: seq<LogEntry>, b: seq<LogEntry>, c: seq<LogEntry>)
    ensures a + (b + c) == (a + b) + c
  {
  }

  lemma MatchingOne(e: LogEntry, level: string)
    ensures Matching([e], level) == if level == "" || e.level == level then [e] else []
  {
    assert [e][1..] == [];
  }

  /** The last n entries end the list, and there are n of them or all. */
  lemma LastExactly<T>(s: seq<T>, n: int)
    ensures |Last(s, n)| == if n <= 0 then 0 else if n < |s| then n else |s|
    ensures s == s[..|s| - |Last(s, n)|] + Last(s, n)
  {
  }

  lemma {:induction false} MatchingConcat(s: seq<LogEntry>, t: seq<LogEntry>, level: string)
    ensures Matching(s + t, level) == Matching(s, level) + Matching(t, level)
  {
    if s == [] {
      assert s + t == t;
    } else {
      assert (s + t)[1..] == s[1..] + t && (s + t)[0] == s[0];
      MatchingConcat(s[1..], t, level);
      var head := if Matches(s[0], level) then [s[0]] else [];
      assert Matching(s + t, level) == head + Matching(s[1..] + t, level);
      assert Matching(s, level) == head + Matching(s[1..], level);
      hide Matching, Matches;
      JoinOnwards(head, Matching(s[1..], level), Matching(t, level));
    }
  }

  class LogBuffer {
    var entries: seq<LogEntry>
    const maxSize: int
    /** Everything added since the last Clear. */
    ghost var history: seq<LogEntry>

    ghost predicate Valid()
      reads this
    {
      maxSize >= 0 && entries == Last(history, maxSize)
    }

    constructor (maxSize: int)
      requires maxSize >= 0
      ensures Valid() && history == [] && this.maxSize == maxSize
    {
      entries, history := [], [];
      this.maxSize := maxSize;
    }

    /** A buffer of size zero can be made, but dropping its oldest entry fails, as it has none. */
    method AddEntry(entry: LogEntry)
      requires Valid() && maxSize > 0
      modifies this
      ensures Valid() && history == old(history) + [entry]
      ensures entries == Last(old(history) + [entry], maxSize)
    {
      if |entries| >= maxSize {
        entries := entries[1..];
      }
      entries := entries + [entry];
      history := history + [entry];
    }

    /** The last maxLines matching entries of the buffer, oldest first. */
    method GetEntries(level: string, maxLines: int) returns (result: seq<LogEntry>)
      requires Valid()
      ensures result == Last(Matching(Last(history, maxSize), level), maxLines)
    {
      result := [];
      var count := 0;
      var i := |entries| - 1;
      while i >= 0 && count < maxLines
        invariant -1 <= i < |entries|
        invariant count == |result| && (count <= maxLines || count == 0)
        invariant result == Matching(entries[i + 1..], level)
      {
        var entry := entries[i];
        assert entries[i..] == [entry] + entries[i + 1..];
        if level == "" || entry.level == level {
          result := [entry] + result;
          count := count + 1;
        }
        i := i - 1;
      }
      assert entries == entries[..i + 1] + entries[i + 1..];
      MatchingConcat(entries[..i + 1], entries[i + 1..], level);
    }

    method Clear()
      requires Valid()
      modifies this
      ensures Valid() && entries == [] && history == []
    {
      entries := [];
      history := [];
    }

    method Size() returns (n: nat)
      requires Valid()
      ensures n == if |history| <= maxSize then |history| else maxSize
    {
      n := |entries|;
    }
  }
}
