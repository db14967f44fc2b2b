/** The persisted session history (packages/bridged/src/persistence.ts). */
module Persistence {
  import opened Wrappers

  /** `endedAt == None` is the absent property: the session is believed to live. */
  datatype Entry = Entry(id: string, name: string, startedAt: int, lastActivityAt: int,
                         endedAt: Option<int>, endReason: Option<string>, exitCode: Option<int>)

  const MAX_ENTRIES: nat := 100

  predicate IsOpen(e: Entry) {
    e.endedAt == None
  }

  function OpenOnes(h: seq<Entry>): seq<Entry> {
    if h == [] then [] else (if IsOpen(h[0]) then [h[0]] else []) + OpenOnes(h[1..])
  }

  function EndedOnes(h: seq<Entry>): seq<Entry> {
    if h == [] then [] else (if IsOpen(h[0]) then [] else [h[0]]) + EndedOnes(h[1..])
  }

  // ---------- Array.sort by a descending time, stable ----------

  function EndKey(e: Entry): int {
    if e.endedAt.Some? then e.endedAt.value else 0
  }

  /** recent() orders by endedAt, or by lastActivityAt while open. */
  function RecencyKey(e: Entry): int {
    if e.endedAt.Some? then e.endedAt.value else e.lastActivityAt
  }

  function Key(byEnd: bool, e: Entry): int {
    if byEnd then EndKey(e) else RecencyKey(e)
  }

  /** Behind every entry at least as late, in front of the rest. */
  function Insert(byEnd: bool, e: Entry, sorted: seq<Entry>): seq<Entry> {
    if sorted == [] || Key(byEnd, e) > Key(byEnd, sorted[0]) then [e] + sorted
    else [sorted[0]] + Insert(byEnd, e, sorted[1..])
  }

  function SortDescending(byEnd: bool, h: seq<Entry>): seq<Entry> {
    if h == [] then [] else Insert(byEnd, h[|h| - 1], SortDescending(byEnd, h[..|h| - 1]))
  }

  ghost predicate Descending(byEnd: bool, h: seq<Entry>) {
    forall i, j | 0 <= i < j < |h| :: Key(byEnd, h[i]) >= Key(byEnd, h[j])
  }

  lemma {:induction false} InsertMultiset(byEnd: bool, e: Entry, sorted: seq<Entry>)
    ensures multiset(Insert(byEnd, e, sorted)) == multiset(sorted) + multiset{e}
  {
    hide Key;
    if sorted != [] && Key(byEnd, e) <= Key(byEnd, sorted[0]) {
      InsertMultiset(byEnd, e, sorted[1..]);
      assert sorted == [sorted[0]] + sorted[1..];
    }
  }

  lemma {:induction false} InsertMembers(byEnd: bool, e: Entry, sorted: seq<Entry>)
    ensures forall i | 0 <= i < |Insert(byEnd, e, sorted)| ::
              Insert(byEnd, e, sorted)[i] == e || Insert(byEnd, e, sorted)[i] in sorted
  {
    hide Key;
    if sorted != [] {
      InsertMembers(byEnd, e, sorted[1..]);
    }
  }

  lemma DescendingCons(byEnd: bool, x: Entry, tail: seq<Entry>)
    requires Descending(byEnd, tail)
    requires forall i | 0 <= i < |tail| :: Key(byEnd, x) >= Key(byEnd, tail[i])
    ensures Descending(byEnd, [x] + tail)
  {
    hide Key;
    var r := [x] + tail;
    assert forall i | 0 < i < |r| :: r[i] == tail[i - 1];
  }

  lemma {:induction false} InsertDescending(byEnd: bool, e: Entry, sorted: seq<Entry>)
    requires Descending(byEnd, sorted)
    ensures Descending(byEnd, Insert(byEnd, e, sorted))
  {
    hide Key;
    if sorted != [] && Key(byEnd, e) <= Key(byEnd, sorted[0]) {
      var tail := sorted[1..];
      InsertDescending(byEnd, e, tail);
      InsertMembers(byEnd, e, tail);
      DescendingCons(byEnd, sorted[0], Insert(byEnd, e, tail));
    } else if sorted != [] {
      DescendingCons(byEnd, e, sorted);
    }
  }

  lemma {:induction false} SortFacts(byEnd: bool, h: seq<Entry>)
    ensures Descending(byEnd, SortDescending(byEnd, h))
    ensures multiset(SortDescending(byEnd, h)) == multiset(h)
    ensures |SortDescending(byEnd, h)| == |h|
  {
    if h != [] {
      var front := h[..|h| - 1];
      SortFacts(byEnd, front);
      InsertDescending(byEnd, h[|h| - 1], SortDescending(byEnd, front));
      InsertMultiset(byEnd, h[|h| - 1], SortDescending(byEnd, front));
      assert h == front + [h[|h| - 1]];
    }
    assert |multiset(SortDescending(byEnd, h))| == |multiset(h)|;
  }

  // ---------- capped eviction ----------

  function Take(h: seq<Entry>, n: nat): seq<Entry> {
    if |h| <= n then h else h[..n]
  }

  function EvictIfOverflow(h: seq<Entry>): seq<Entry> {
    if |h| <= MAX_ENTRIES then h
    else
      var open := OpenOnes(h);
      var room := if MAX_ENTRIES > |open| then MAX_ENTRIES - |open| else 0;
      open + Take(SortDescending(true, EndedOnes(h)), room)
  }

  lemma OpenAndEnded(h: seq<Entry>)
    ensures multiset(h) == multiset(OpenOnes(h)) + multiset(EndedOnes(h))
    ensures |h| == |OpenOnes(h)| + |EndedOnes(h)|
    ensures forall e :: e in OpenOnes(h) <==> e in h && IsOpen(e)
    ensures forall e :: e in EndedOnes(h) <==> e in h && !IsOpen(e)
  {
    CountOpenAndEnded(h);
    OpenOrEnded(h);
  }

  lemma {:induction false} CountOpenAndEnded(h: seq<Entry>)
    ensures multiset(h) == multiset(OpenOnes(h)) + multiset(EndedOnes(h))
    ensures |h| == |OpenOnes(h)| + |EndedOnes(h)|
  {
    if h != [] {
      CountOpenAndEnded(h[1..]);
      assert h == [h[0]] + h[1..];
    }
  }

  lemma {:induction false} OpenOrEnded(h: seq<Entry>)
    ensures forall e :: e in OpenOnes(h) <==> e in h && IsOpen(e)
    ensures forall e :: e in EndedOnes(h) <==> e in h && !IsOpen(e)
  {
    if h != [] {
      OpenOrEnded(h[1..]);
      assert h == [h[0]] + h[1..];
    }
  }

  lemma {:induction false} OpenOnesAppend(a: seq<Entry>, b: seq<Entry>)
    ensures OpenOnes(a + b) == OpenOnes(a) + OpenOnes(b)
  {
    if a == [] {
      assert a + b == b;
    } else {
      hide OpenOnes;
      var tail, head := a[1..], if IsOpen(a[0]) then [a[0]] else [];
      assert (a + b)[0] == a[0] && (a + b)[1..] == tail + b;
      OpenOnesCons(a);
      OpenOnesCons(a + b);
      OpenOnesAppend(tail, b);
      Regroup(head, OpenOnes(tail), OpenOnes(b));
    }
  }

  lemma Regroup(a: seq<Entry>, b: seq<Entry>, c: seq<Entry>)
    ensures a + (b + c) == (a + b) + c
  {
  }

  lemma OpenOnesCons(h: seq<Entry>)
    requires h != []
    ensures OpenOnes(h) == (if IsOpen(h[0]) then [h[0]] else []) + OpenOnes(h[1..])
  {
  }

  lemma {:induction false} OpenOnesOfAll(h: seq<Entry>)
    ensures (forall i | 0 <= i < |h| :: IsOpen(h[i])) ==> OpenOnes(h) == h
    ensures (forall i | 0 <= i < |h| :: !IsOpen(h[i])) ==> OpenOnes(h) == []
  {
    if h != [] {
      OpenOnesOfAll(h[1..]);
    }
  }

  lemma {:induction false} OpenOnesAreOpen(h: seq<Entry>)
    ensures forall i | 0 <= i < |OpenOnes(h)| :: IsOpen(OpenOnes(h)[i])
  {
    if h != [] {
      OpenOnesAreOpen(h[1..]);
    }
  }

  /** Cutting a sorted list: what is dropped is not in front of what is kept. */
  lemma CutSorted(byEnd: bool, sorted: seq<Entry>, n: nat)
    requires Descending(byEnd, sorted) && n <= |sorted|
    ensures forall kept, dropped | kept in sorted[..n] && dropped in sorted[n..] :: Key(byEnd, kept) >= Key(byEnd, dropped)
    ensures multiset(sorted) == multiset(sorted[..n]) + multiset(sorted[n..])
  {
    hide Key;
    var front, rest := sorted[..n], sorted[n..];
    assert sorted == front + rest;
    forall kept, dropped | kept in front && dropped in rest
      ensures Key(byEnd, kept) >= Key(byEnd, dropped)
    {
      var i :| 0 <= i < |front| && front[i] == kept;
      var j :| 0 <= j < |rest| && rest[j] == dropped;
      assert sorted[i] == kept && sorted[n + j] == dropped;
    }
  }

  /** Among the ended entries, every kept one ended no earlier than every dropped one. */
  ghost predicate KeepsLatestEnded(h: seq<Entry>, r: seq<Entry>) {
    forall kept, dropped | kept in r && !IsOpen(kept) && dropped in multiset(h) - multiset(r) ::
      !IsOpen(dropped) && kept.endedAt.value >= dropped.endedAt.value
  }

  /**
   Eviction never drops or reorders an open entry, adds nothing, brings an overflowing history
   to 100 entries (or to its open entries alone), and among the ended ones keeps the latest.
   */
  lemma EvictionFacts(h: seq<Entry>)
    ensures var r := EvictIfOverflow(h);
            && OpenOnes(r) == OpenOnes(h)
            && multiset(r) <= multiset(h)
            && |r| == (if |h| <= MAX_ENTRIES then |h|
                       else if |OpenOnes(h)| > MAX_ENTRIES then |OpenOnes(h)| else MAX_ENTRIES)
            && KeepsLatestEnded(h, r)
  {
    if |h| > MAX_ENTRIES {
      hide OpenOnes, EndedOnes, SortDescending, Descending, KeepsLatestEnded;
      var open, sorted := OpenOnes(h), SortDescending(true, EndedOnes(h));
      OpenAndEnded(h);
      SortFacts(true, EndedOnes(h));
      var n := EvictionCut(h, open, sorted);
      EvictionKeepsOpen(h, sorted, n);
      EvictionKeepsLatest(h, sorted, n);
    } else {
      NothingDropped(h);
    }
  }

  lemma NothingDropped(h: seq<Entry>)
    ensures KeepsLatestEnded(h, h)
  {
    assert multiset(h) - multiset(h) == multiset{};
  }

  /** Where the sorted ended entries are cut. */
  lemma EvictionCut(h: seq<Entry>, open: seq<Entry>, sorted: seq<Entry>) returns (n: nat)
    requires |h| > MAX_ENTRIES && open == OpenOnes(h) && sorted == SortDescending(true, EndedOnes(h))
    requires |h| == |open| + |sorted|
    ensures n <= |sorted| && EvictIfOverflow(h) == open + sorted[..n]
    ensures |open| + n == if |open| > MAX_ENTRIES then |open| else MAX_ENTRIES
  {
    hide OpenOnes, EndedOnes, SortDescending;
    n := if MAX_ENTRIES > |open| then MAX_ENTRIES - |open| else 0;
    assert |sorted| == n ==> sorted[..n] == sorted;
  }

  lemma EvictionKeepsOpen(h: seq<Entry>, sorted: seq<Entry>, n: nat)
    requires multiset(sorted) == multiset(EndedOnes(h)) && n <= |sorted|
    ensures OpenOnes(OpenOnes(h) + sorted[..n]) == OpenOnes(h)
  {
    var open, kept := OpenOnes(h), sorted[..n];
    OpenAndEnded(h);
    OpenOnesAppend(open, kept);
    OpenOnesAreOpen(h);
    OpenOnesOfAll(open);
    forall i | 0 <= i < |kept| ensures !IsOpen(kept[i]) {
      assert sorted[i] in multiset(sorted);
      assert kept[i] in EndedOnes(h);
    }
    OpenOnesOfAll(kept);
    assert open + [] == open;
  }

  lemma EvictionKeepsLatest(h: seq<Entry>, sorted: seq<Entry>, n: nat)
    requires Descending(true, sorted) && multiset(sorted) == multiset(EndedOnes(h)) && n <= |sorted|
    ensures var r := OpenOnes(h) + sorted[..n]; multiset(r) <= multiset(h) && KeepsLatestEnded(h, r)
  {
    OpenAndEnded(h);
    CutSorted(true, sorted, n);
    hide Descending, OpenOnes, EndedOnes;
    CutMultiset(h, OpenOnes(h), EndedOnes(h), sorted, n);
    var front, rest := sorted[..n], sorted[n..];
    var r := OpenOnes(h) + front;
    forall kept, dropped | kept in r && !IsOpen(kept) && dropped in multiset(rest)
      ensures !IsOpen(dropped) && kept.endedAt.value >= dropped.endedAt.value
    {
      assert dropped in multiset(sorted);
      assert dropped in EndedOnes(h);
      assert kept in front;
      assert Key(true, kept) >= Key(true, dropped);
    }
  }

  lemma CutMultiset(h: seq<Entry>, open: seq<Entry>, ended: seq<Entry>, sorted: seq<Entry>, n: nat)
    requires multiset(h) == multiset(open) + multiset(ended) && multiset(sorted) == multiset(ended) && n <= |sorted|
    ensures var r := open + sorted[..n]; multiset(r) <= multiset(h) && multiset(h) - multiset(r) == multiset(sorted[n..])
  {
    assert sorted == sorted[..n] + sorted[n..];
  }

  // ---------- the operations ----------

  function IndexOfId(h: seq<Entry>, id: string): (r: Option<nat>)
    ensures r.Some? ==> r.value < |h| && h[r.value].id == id && forall i | 0 <= i < r.value :: h[i].id != id
    ensures r == None ==> forall i | 0 <= i < |h| :: h[i].id != id
  {
    if h == [] then None
    else if h[0].id == id then Some(0)
    else
      var r := IndexOfId(h[1..], id);
      if r.Some? then Some(r.value + 1) else None
  }

  /** The constructor: whatever was open when the previous daemon stopped has ended. */
  function Loaded(file: seq<Entry>, now: int): seq<Entry> {
    seq(|file|, i requires 0 <= i < |file| =>
      if IsOpen(file[i]) then file[i].(endedAt := Some(now), endReason := Some("daemon_shutdown")) else file[i])
  }

  function Reopened(old_: Entry, meta: Entry): Entry {
    Entry(old_.id, meta.name, old_.startedAt, meta.lastActivityAt, None, None, None)
  }

  function AddOrUpdate(h: seq<Entry>, meta: Entry): seq<Entry> {
    match IndexOfId(h, meta.id)
    case Some(k) => EvictIfOverflow(h[k := Reopened(h[k], meta)])
    case None => EvictIfOverflow(h + [meta])
  }

  function MarkEnded(h: seq<Entry>, id: string, reason: string, exitCode: Option<int>, now: int): seq<Entry> {
    match IndexOfId(h, id)
    case None => h
    case Some(k) =>
      if !IsOpen(h[k]) then h
      else
        EvictIfOverflow(h[k := h[k].(endedAt := Some(now), endReason := Some(reason),
                                     exitCode := if exitCode.Some? then exitCode else h[k].exitCode)])
  }

  ghost predicate DistinctIds(h: seq<Entry>) {
    forall i, j | 0 <= i < j < |h| :: h[i].id != h[j].id
  }

  ghost predicate OpenIn(h: seq<Entry>, id: string) {
    exists i :: 0 <= i < |h| && h[i].id == id && IsOpen(h[i])
  }

  lemma {:induction false} CountById(h: seq<Entry>, e: Entry)
    requires DistinctIds(h)
    ensures multiset(h)[e] <= 1
  {
    if h != [] {
      CountById(h[1..], e);
      assert h == [h[0]] + h[1..];
      assert forall i | 0 <= i < |h[1..]| :: h[1..][i] == h[i + 1] && h[i + 1].id != h[0].id;
    }
  }

  /** A sub-multiset of a history with distinct ids has distinct ids. */
  lemma SubDistinct(r: seq<Entry>, h: seq<Entry>)
    requires multiset(r) <= multiset(h) && DistinctIds(h)
    ensures DistinctIds(r)
  {
    forall i, j | 0 <= i < j < |r| ensures r[i].id != r[j].id {
      assert r[i] in multiset(r) && r[j] in multiset(r);
      assert r[i] in multiset(h) && r[j] in multiset(h);
      if r[i].id == r[j].id {
        var a :| 0 <= a < |h| && h[a] == r[i];
        var b :| 0 <= b < |h| && h[b] == r[j];
        assert a == b;
        TwiceInSequence(r, i, j);
        CountById(h, r[i]);
        assert false;
      }
    }
  }

  lemma TwiceInSequence(r: seq<Entry>, i: nat, j: nat)
    requires i < j < |r| && r[i] == r[j]
    ensures multiset(r)[r[i]] >= 2
  {
    assert r == r[..i] + [r[i]] + r[i + 1..j] + [r[j]] + r[j + 1..];
  }

  /** Eviction changes neither which ids are open nor the distinctness of ids. */
  lemma EvictionKeepsOpenIds(h: seq<Entry>)
    ensures DistinctIds(h) ==> DistinctIds(EvictIfOverflow(h))
    ensures forall id :: OpenIn(EvictIfOverflow(h), id) <==> OpenIn(h, id)
  {
    EvictionFacts(h);
    var r := EvictIfOverflow(h);
    if DistinctIds(h) {
      SubDistinct(r, h);
    }
    OpenInIsOpenOnes(h);
    OpenInIsOpenOnes(r);
  }

  lemma OpenInIsOpenOnes(h: seq<Entry>)
    ensures forall id :: OpenIn(h, id) <==> exists e :: e in OpenOnes(h) && e.id == id
  {
    OpenAndEnded(h);
    forall id ensures OpenIn(h, id) <==> exists e :: e in OpenOnes(h) && e.id == id {
      if OpenIn(h, id) {
        var i :| 0 <= i < |h| && h[i].id == id && IsOpen(h[i]);
        assert h[i] in OpenOnes(h);
      }
      if exists e :: e in OpenOnes(h) && e.id == id {
        var e :| e in OpenOnes(h) && e.id == id;
        assert e in h;
      }
    }
  }

  /** Adding opens exactly one more id. */
  lemma AddOpens(h: seq<Entry>, meta: Entry)
    requires DistinctIds(h) && IsOpen(meta)
    ensures DistinctIds(AddOrUpdate(h, meta))
    ensures forall id :: OpenIn(AddOrUpdate(h, meta), id) <==> OpenIn(h, id) || id == meta.id
  {
    hide EvictIfOverflow;
    match IndexOfId(h, meta.id) {
      case Some(k) =>
        var t := h[k := Reopened(h[k], meta)];
        EvictionKeepsOpenIds(t);
        forall id ensures OpenIn(t, id) <==> OpenIn(h, id) || id == meta.id {
          if OpenIn(h, id) {
            var i :| 0 <= i < |h| && h[i].id == id && IsOpen(h[i]);
            assert t[i].id == id && IsOpen(t[i]);
          }
          assert t[k].id == meta.id && IsOpen(t[k]);
        }
      case None =>
        var t := h + [meta];
        EvictionKeepsOpenIds(t);
        forall id ensures OpenIn(t, id) <==> OpenIn(h, id) || id == meta.id {
          if OpenIn(h, id) {
            var i :| 0 <= i < |h| && h[i].id == id && IsOpen(h[i]);
            assert t[i].id == id && IsOpen(t[i]);
          }
          assert t[|h|] == meta;
        }
    }
  }

  /** Ending closes exactly that id. */
  lemma EndCloses(h: seq<Entry>, id: string, reason: string, exitCode: Option<int>, now: int)
    requires DistinctIds(h)
    ensures DistinctIds(MarkEnded(h, id, reason, exitCode, now))
    ensures forall x :: OpenIn(MarkEnded(h, id, reason, exitCode, now), x) <==> OpenIn(h, x) && x != id
  {
    hide EvictIfOverflow;
    match IndexOfId(h, id) {
      case None =>
      case Some(k) =>
        if IsOpen(h[k]) {
          var t := h[k := h[k].(endedAt := Some(now), endReason := Some(reason),
                                exitCode := if exitCode.Some? then exitCode else h[k].exitCode)];
          EvictionKeepsOpenIds(t);
          forall x ensures OpenIn(t, x) <==> OpenIn(h, x) && x != id {
            if OpenIn(h, x) && x != id {
              var i :| 0 <= i < |h| && h[i].id == x && IsOpen(h[i]);
              assert t[i] == h[i];
            }
          }
        }
    }
  }

  /** What an entry records once its session has ended, if it was open before. */
  ghost predicate EndsAs(o: Entry, e: Entry, reason: string, exitCode: Option<int>, now: int) {
    && e.id == o.id && e.name == o.name && e.startedAt == o.startedAt && e.lastActivityAt == o.lastActivityAt
    && e.endedAt == Some(now) && e.endReason == Some(reason)
    && e.exitCode == (if exitCode.Some? then exitCode else o.exitCode)
  }

  lemma EvictionKeepsMembers(h: seq<Entry>)
    ensures forall e | e in EvictIfOverflow(h) :: e in h
    ensures |h| <= MAX_ENTRIES ==> EvictIfOverflow(h) == h
  {
    EvictionFacts(h);
    var r := EvictIfOverflow(h);
    forall e | e in r ensures e in h {
      assert e in multiset(r);
    }
  }

  /** Where the entries of an ended history come from. */
  lemma EndMembers(h: seq<Entry>, id: string, reason: string, exitCode: Option<int>, now: int)
    ensures forall e | e in MarkEnded(h, id, reason, exitCode, now) ::
              e in h || exists o :: o in h && o.id == id && IsOpen(o) && EndsAs(o, e, reason, exitCode, now)
  {
    hide EvictIfOverflow;
    var k := IndexOfId(h, id);
    if k.Some? && IsOpen(h[k.value]) {
      var o := h[k.value];
      var x := o.(endedAt := Some(now), endReason := Some(reason), exitCode := if exitCode.Some? then exitCode else o.exitCode);
      var t := h[k.value := x];
      EvictionKeepsMembers(t);
      assert EndsAs(o, x, reason, exitCode, now);
      forall e | e in t ensures e in h || e == x {
        var i :| 0 <= i < |t| && t[i] == e;
        assert i != k.value ==> e == h[i];
      }
    }
  }

  /** Ending an id: its open entry records time, reason and exit code, everything else is as it was; without overflow nothing moves. */
  lemma EndRecords(h: seq<Entry>, id: string, reason: string, exitCode: Option<int>, now: int)
    requires DistinctIds(h)
    ensures var r := MarkEnded(h, id, reason, exitCode, now);
            && (forall e | e in r && e.id != id :: e in h)
            && (forall e, o | e in r && o in h && e.id == o.id == id ::
                  if IsOpen(o) then EndsAs(o, e, reason, exitCode, now) else e == o)
            && (|h| <= MAX_ENTRIES ==> |r| == |h| && forall i | 0 <= i < |h| :: r[i].id == h[i].id && (h[i].id != id ==> r[i] == h[i]))
  {
    hide EvictIfOverflow;
    var r, k := MarkEnded(h, id, reason, exitCode, now), IndexOfId(h, id);
    if k.Some? && IsOpen(h[k.value]) {
      var o := h[k.value];
      var x := o.(endedAt := Some(now), endReason := Some(reason), exitCode := if exitCode.Some? then exitCode else o.exitCode);
      var t := h[k.value := x];
      EvictionKeepsMembers(t);
      forall e | e in r ensures (e.id != id ==> e in h) && (e.id == id ==> e == x) {
        var i :| 0 <= i < |t| && t[i] == e;
        assert i != k.value ==> e == h[i] && h[i].id != h[k.value].id;
      }
      OnlyOne(h, k.value);
    } else if k.Some? {
      OnlyOne(h, k.value);
    }
  }

  lemma OnlyOne(h: seq<Entry>, k: nat)
    requires DistinctIds(h) && k < |h|
    ensures forall o | o in h && o.id == h[k].id :: o == h[k]
  {
    forall o | o in h && o.id == h[k].id ensures o == h[k] {
      var i :| 0 <= i < |h| && h[i] == o;
    }
  }

  /** What an added or updated entry records: open again, under the new label, with the first start it ever had. */
  ghost predicate OpensAs(h: seq<Entry>, e: Entry, meta: Entry) {
    && e.id == meta.id && e.name == meta.name && e.lastActivityAt == meta.lastActivityAt
    && e.endedAt == None && e.endReason == None && e.exitCode == None
    && (forall o | o in h && o.id == meta.id :: e.startedAt == o.startedAt)
    && ((forall o | o in h :: o.id != meta.id) ==> e.startedAt == meta.startedAt)
  }

  /** Adding a session: the entry under its id is open with its data, every other entry is as it was. */
  lemma AddRecords(h: seq<Entry>, meta: Entry)
    requires DistinctIds(h) && IsOpen(meta) && meta.endReason == None && meta.exitCode == None
    ensures var r := AddOrUpdate(h, meta);
            && (forall e | e in r && e.id != meta.id :: e in h)
            && (forall e | e in r && e.id == meta.id :: OpensAs(h, e, meta))
            && (exists e :: e in r && e.id == meta.id)
  {
    AddOpens(h, meta);
    hide EvictIfOverflow;
    var r, k := AddOrUpdate(h, meta), IndexOfId(h, meta.id);
    if k.Some? {
      var x := Reopened(h[k.value], meta);
      var t := h[k.value := x];
      EvictionKeepsMembers(t);
      OnlyOne(h, k.value);
      forall e | e in r ensures (e.id != meta.id ==> e in h) && (e.id == meta.id ==> e == x) {
        var i :| 0 <= i < |t| && t[i] == e;
        assert i != k.value ==> e == h[i] && h[i].id != h[k.value].id;
      }
      assert OpensAs(h, x, meta);
    } else {
      EvictionKeepsMembers(h + [meta]);
      assert OpensAs(h, meta, meta);
    }
    assert OpenIn(r, meta.id);
  }

  /** Where the entries of a history come from after an addition, distinct ids or not. */
  lemma AddMembers(h: seq<Entry>, meta: Entry)
    ensures forall e | e in AddOrUpdate(h, meta) ::
              e in h || e == meta || (e.id == meta.id && e.endedAt == None && e.endReason == None && e.exitCode == None)
  {
    hide EvictIfOverflow;
    var k := IndexOfId(h, meta.id);
    if k.Some? {
      var t := h[k.value := Reopened(h[k.value], meta)];
      EvictionKeepsMembers(t);
      forall e | e in t ensures e in h || e == Reopened(h[k.value], meta) {
        var i :| 0 <= i < |t| && t[i] == e;
        assert i != k.value ==> e == h[i];
      }
    } else {
      EvictionKeepsMembers(h + [meta]);
    }
  }

  /** Loading: what was open has ended now, with the daemon's shutdown as its reason and its exit code kept; the rest is as it was. */
  lemma LoadedRecords(file: seq<Entry>, now: int, i: nat)
    requires i < |file|
    ensures |Loaded(file, now)| == |file|
    ensures if file[i].endedAt.Some? then Loaded(file, now)[i] == file[i]
            else EndsAs(file[i], Loaded(file, now)[i], "daemon_shutdown", None, now)
  {
  }

  /** After a restart nothing is open, and nothing is lost. */
  lemma LoadedNoneOpen(file: seq<Entry>, now: int)
    ensures forall id :: !OpenIn(Loaded(file, now), id)
    ensures DistinctIds(file) ==> DistinctIds(Loaded(file, now))
    ensures |Loaded(file, now)| == |file|
  {
  }

  /** lookupByLabels for one label: the latest activity wins, the earlier entry on a tie. */
  function TopByLabel(h: seq<Entry>, name: string): (r: Option<Entry>)
    ensures r == None <==> forall e | e in h :: e.name != name
    ensures r.Some? ==> r.value in h && r.value.name == name
                        && forall e | e in h && e.name == name :: e.lastActivityAt <= r.value.lastActivityAt
  {
    if h == [] then None
    else
      var r := TopByLabel(h[1..], name);
      assert forall e :: e in h <==> e == h[0] || e in h[1..];
      if h[0].name != name then r
      else if r.Some? && r.value.lastActivityAt > h[0].lastActivityAt then r
      else Some(h[0])
  }

  /** The entries for those of the labels that have one, label by label. */
  function FoundFor(h: seq<Entry>, names: seq<string>): seq<Entry> {
    if names == [] then []
    else
      var top := TopByLabel(h, names[|names| - 1]);
      FoundFor(h, names[..|names| - 1]) + (if top.Some? then [top.value] else [])
  }

  /** The others, in order. */
  function MissingFrom(h: seq<Entry>, names: seq<string>): seq<string> {
    if names == [] then []
    else
      var n := |names| - 1;
      MissingFrom(h, names[..n]) + (if TopByLabel(h, names[n]) == None then [names[n]] else [])
  }

  lemma {:induction false} LookupFacts(h: seq<Entry>, names: seq<string>)
    ensures |FoundFor(h, names)| + |MissingFrom(h, names)| == |names|
    ensures forall e | e in FoundFor(h, names) :: TopByLabel(h, e.name) == Some(e) && e.name in names
    ensures forall n | n in MissingFrom(h, names) :: TopByLabel(h, n) == None && n in names
    ensures forall n | n in names :: n in MissingFrom(h, names) || exists e :: e in FoundFor(h, names) && e.name == n
  {
    if names != [] {
      var front, last := names[..|names| - 1], names[|names| - 1];
      LookupFacts(h, front);
      var top := TopByLabel(h, last);
      assert top.Some? ==> top.value.name == last;
      hide TopByLabel;
      assert names == front + [last];
      assert forall n :: n in names <==> n in front || n == last;
      var found, missing := FoundFor(h, names), MissingFrom(h, names);
      assert forall e :: e in found <==> e in FoundFor(h, front) || top == Some(e);
      assert forall n :: n in missing <==> n in MissingFrom(h, front) || (top == None && n == last);
      hide FoundFor, MissingFrom;
      if top.Some? {
        assert top.value in found;
      }
    }
  }

  /** Ended entries count from their end, open ones from their latest activity. */
  predicate NotEarlier(a: Entry, b: Entry) {
    match (a.endedAt, b.endedAt)
    case (Some(x), Some(y)) => x >= y
    case (Some(x), None) => x >= b.lastActivityAt
    case (None, Some(y)) => a.lastActivityAt >= y
    case (None, None) => a.lastActivityAt >= b.lastActivityAt
  }

  // ---------- the class ----------

  class SessionPersistence {
    var state: seq<Entry>
    /** What persist() last wrote, if it was called. */
    var written: Option<seq<Entry>>

    constructor (file: seq<Entry>, now: int)
      ensures state == Loaded(file, now)
      ensures written == None <==> forall i | 0 <= i < |file| :: !IsOpen(file[i])
      ensures written.Some? ==> written.value == state
    {
      var entries := file;
      var mutated := false;
      var i := 0;
      while i < |file|
        invariant i <= |file| && |entries| == |file|
        invariant forall j | 0 <= j < i :: entries[j] == Loaded(file, now)[j]
        invariant forall j | i <= j < |file| :: entries[j] == file[j]
        invariant !mutated <==> forall j | 0 <= j < i :: !IsOpen(file[j])
      {
        if IsOpen(entries[i]) {
          entries := entries[i := entries[i].(endedAt := Some(now), endReason := Some("daemon_shutdown"))];
          mutated := true;
        }
        i := i + 1;
      }
      assert entries == Loaded(file, now);
      state := entries;
      written := if mutated then Some(entries) else None;
    }

    method Add(meta: Entry)
      modifies this
      ensures state == AddOrUpdate(old(state), meta) && written == Some(state)
    {
      var k := IndexOfId(state, meta.id);
      match k {
        case Some(k) =>
          state := state[k := Entry(state[k].id, meta.name, state[k].startedAt, meta.lastActivityAt, None, None, None)];
        case None => state := state + [meta];
      }
      state := EvictIfOverflow(state);
      written := Some(state);
    }

    method End(id: string, reason: string, exitCode: Option<int>, now: int)
      modifies this
      ensures state == MarkEnded(old(state), id, reason, exitCode, now)
      ensures state == old(state) || written == Some(state)
    {
      var k := IndexOfId(state, id);
      if k == None || state[k.value].endedAt.Some? {
        return;
      }
      var e := state[k.value].(endedAt := Some(now), endReason := Some(reason));
      if exitCode.Some? {
        e := e.(exitCode := exitCode);
      }
      state := state[k.value := e];
      state := EvictIfOverflow(state);
      written := Some(state);
    }

    /** Bumps a living entry's activity time without writing the file; no other part of the daemon calls it so far. */
    method TouchActivity(id: string, at: int)
      modifies this`state
      ensures match IndexOfId(old(state), id)
              case None => state == old(state)
              case Some(k) =>
                state == if IsOpen(old(state)[k]) then old(state)[k := old(state)[k].(lastActivityAt := at)] else old(state)
    {
      var k := IndexOfId(state, id);
      if k == None || !IsOpen(state[k.value]) {
        return;
      }
      state := state[k.value := state[k.value].(lastActivityAt := at)];
    }

    /** Each asked label, as often as it is asked, is found or missing, in the order asked. */
    method LookupByLabels(names: seq<string>) returns (found: seq<Entry>, missing: seq<string>)
      ensures found == FoundFor(state, names) && missing == MissingFrom(state, names)
      ensures |found| + |missing| == |names|
      ensures forall e | e in found :: TopByLabel(state, e.name) == Some(e) && e.name in names
      ensures forall n | n in missing :: TopByLabel(state, n) == None && n in names
      ensures forall n | n in names :: n in missing || exists e :: e in found && e.name == n
    {
      hide TopByLabel;
      found, missing := [], [];
      for i := 0 to |names|
        invariant found == FoundFor(state, names[..i]) && missing == MissingFrom(state, names[..i])
      {
        assert names[..i + 1][..i] == names[..i];
        var top := TopByLabel(state, names[i]);
        match top {
          case Some(e) => found := found + [e];
          case None => missing := missing + [names[i]];
        }
      }
      assert names[..|names|] == names;
      hide FoundFor, MissingFrom;
      LookupFacts(state, names);
    }

    /** Most recent first; at most `limit` of them if a positive limit is given. */
    method Recent(limit: Option<int>, liveOnly: bool) returns (r: seq<Entry>)
      ensures Descending(false, r)
      ensures var pool := if liveOnly then OpenOnes(state) else state;
              && multiset(r) <= multiset(pool)
              && |r| == (if limit.Some? && 0 < limit.value < |pool| then limit.value else |pool|)
              && forall kept, dropped | kept in r && dropped in multiset(pool) - multiset(r) ::
                   NotEarlier(kept, dropped)
      ensures forall i, j | 0 <= i < j < |r| :: NotEarlier(r[i], r[j])
    {
      var pool := if liveOnly then OpenOnes(state) else state;
      var sorted := SortDescending(false, pool);
      SortFacts(false, pool);
      hide SortDescending, OpenOnes, NotEarlier, Descending;
      r := if limit.Some? && limit.value > 0 then Take(sorted, limit.value) else sorted;
      assert r == sorted[..|r|];
      LatestFirst(pool, sorted, |r|);
    }
  }

  lemma CutDescending(sorted: seq<Entry>, n: nat)
    requires Descending(false, sorted) && n <= |sorted|
    ensures Descending(false, sorted[..n])
  {
    hide Key;
  }

  lemma LatestFirst(pool: seq<Entry>, sorted: seq<Entry>, n: nat)
    requires Descending(false, sorted) && multiset(sorted) == multiset(pool) && n <= |sorted|
    ensures var r := sorted[..n];
            && Descending(false, r) && multiset(r) <= multiset(pool)
            && forall kept, dropped | kept in r && dropped in multiset(pool) - multiset(r) ::
                 NotEarlier(kept, dropped)
    ensures forall i, j | 0 <= i < j < n :: NotEarlier(sorted[i], sorted[j])
  {
    CutDescending(sorted, n);
    forall i, j | 0 <= i < j < n ensures NotEarlier(sorted[i], sorted[j]) {
      KeysAreTimes(sorted[i], sorted[j]);
    }
    hide Descending, NotEarlier, Key;
    CutSorted(false, sorted, n);
    var r, rest := sorted[..n], sorted[n..];
    assert multiset(pool) - multiset(r) == multiset(rest);
    forall kept, dropped | kept in r && dropped in multiset(rest) ensures NotEarlier(kept, dropped) {
      KeysAreTimes(kept, dropped);
    }
  }

  lemma KeysAreTimes(a: Entry, b: Entry)
    ensures Key(false, a) >= Key(false, b) <==> NotEarlier(a, b)
  {
  }
}
