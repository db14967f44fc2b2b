/**
 The bounded buffer of timestamped output chunks (packages/bridged/src/ring-buffer.ts),
 what it retains of everything ever pushed, and what polling it with `readSince` returns.
 */
module RingBuffer {
  import opened Wrappers

  datatype Chunk = Chunk(ts: int, bytes: seq<byte>)

  function Bytes(cs: seq<Chunk>): seq<byte> {
    if cs == [] then [] else cs[0].bytes + Bytes(cs[1..])
  }

  function Total(cs: seq<Chunk>): nat {
    if cs == [] then 0 else |cs[0].bytes| + Total(cs[1..])
  }

  /** The last `n` bytes. */
  function Tail(bs: seq<byte>, n: nat): seq<byte> {
    if |bs| <= n then bs else bs[|bs| - n..]
  }

  predicate IsSuffix(a: seq<byte>, b: seq<byte>) {
    |a| <= |b| && b[|b| - |a|..] == a
  }

  lemma {:induction false} BytesAppend(xs: seq<Chunk>, ys: seq<Chunk>)
    ensures Bytes(xs + ys) == Bytes(xs) + Bytes(ys)
  {
    if xs == [] {
      assert xs + ys == ys;
    } else {
      assert (xs + ys)[1..] == xs[1..] + ys;
      BytesAppend(xs[1..], ys);
    }
  }

  lemma {:induction false} TotalIsLength(cs: seq<Chunk>)
    ensures Total(cs) == |Bytes(cs)|
  {
    if cs != [] {
      TotalIsLength(cs[1..]);
    }
  }

  lemma TotalAppend(xs: seq<Chunk>, ys: seq<Chunk>)
    ensures Total(xs + ys) == Total(xs) + Total(ys)
  {
    BytesAppend(xs, ys);
    TotalIsLength(xs);
    TotalIsLength(ys);
    TotalIsLength(xs + ys);
  }

  // ---------- what is retained ----------

  /** What `pushChunk` stores of one push: nothing if empty, else at most the last `max` bytes. */
  function Stored(max: nat, c: Chunk): seq<Chunk> {
    if c.bytes == [] then [] else [Chunk(c.ts, Tail(c.bytes, max))]
  }

  function StoredAll(max: nat, pushes: seq<Chunk>): seq<Chunk> {
    if pushes == [] then []
    else StoredAll(max, pushes[..|pushes| - 1]) + Stored(max, pushes[|pushes| - 1])
  }

  /** Oldest-first eviction, as a recursion. */
  function Evict(max: nat, cs: seq<Chunk>): seq<Chunk> {
    if Total(cs) > max && cs != [] then Evict(max, cs[1..]) else cs
  }

  /** The chunks a buffer holds after `pushes`, independently of the order of pushing and evicting. */
  function Retained(max: nat, pushes: seq<Chunk>): seq<Chunk> {
    Evict(max, StoredAll(max, pushes))
  }

  ghost predicate LongestFittingSuffix(max: nat, all: seq<Chunk>, kept: seq<Chunk>) {
    && |kept| <= |all|
    && kept == all[|all| - |kept|..]
    && Total(kept) <= max
    && forall i | 0 <= i < |all| - |kept| :: Total(all[i..]) > max
  }

  lemma {:induction false} EvictKeepsLongestSuffix(max: nat, all: seq<Chunk>)
    ensures LongestFittingSuffix(max, all, Evict(max, all))
  {
    if Total(all) > max && all != [] {
      var rest, kept := all[1..], Evict(max, all);
      EvictKeepsLongestSuffix(max, rest);
      assert all[|all| - |kept|..] == rest[|rest| - |kept|..];
      forall i | 0 <= i < |all| - |kept| ensures Total(all[i..]) > max {
        if i > 0 {
          assert all[i..] == rest[i - 1..];
        } else {
          assert all[0..] == all;
        }
      }
    } else {
      assert all[0..] == all;
    }
  }

  /** Evicting after every push is the same as evicting once at the end. */
  lemma {:induction false} EvictThenPush(max: nat, cs: seq<Chunk>, more: seq<Chunk>)
    ensures Evict(max, Evict(max, cs) + more) == Evict(max, cs + more)
  {
    if Total(cs) > max && cs != [] {
      TotalAppend(cs, more);
      assert (cs + more)[1..] == cs[1..] + more;
      EvictThenPush(max, cs[1..], more);
    }
  }

  lemma StoredAllSnoc(max: nat, pushes: seq<Chunk>, c: Chunk)
    ensures StoredAll(max, pushes + [c]) == StoredAll(max, pushes) + Stored(max, c)
  {
    assert (pushes + [c])[..|pushes|] == pushes;
  }

  lemma {:induction false} StoredAllAppend(max: nat, xs: seq<Chunk>, ys: seq<Chunk>)
    ensures StoredAll(max, xs + ys) == StoredAll(max, xs) + StoredAll(max, ys)
    decreases |ys|
  {
    if ys == [] {
      assert xs + ys == xs;
    } else {
      var n := |ys| - 1;
      assert xs + ys == (xs + ys[..n]) + [ys[n]];
      StoredAllSnoc(max, xs + ys[..n], ys[n]);
      StoredAllAppend(max, xs, ys[..n]);
    }
  }

  lemma SuffixAfterAppend(a: seq<byte>, b: seq<byte>, c: seq<byte>)
    requires IsSuffix(a, b)
    ensures IsSuffix(a + c, b + c)
  {
  }

  lemma SuffixOfSuffix(a: seq<byte>, b: seq<byte>, c: seq<byte>)
    requires IsSuffix(a, b) && IsSuffix(b, c)
    ensures IsSuffix(a, c)
  {
    assert c[|c| - |a|..] == c[|c| - |b|..][|b| - |a|..];
  }

  /** A suffix no longer than the last part lies inside that part. */
  lemma ShortSuffix(a: seq<byte>, b: seq<byte>, c: seq<byte>)
    requires IsSuffix(a, b + c) && |a| <= |c|
    ensures IsSuffix(a, c)
  {
    assert (b + c)[|b + c| - |a|..] == c[|c| - |a|..];
  }

  lemma EvictedBytes(max: nat, cs: seq<Chunk>)
    ensures IsSuffix(Bytes(Evict(max, cs)), Bytes(cs)) && |Bytes(Evict(max, cs))| <= max
  {
    EvictKeepsLongestSuffix(max, cs);
    var kept := Evict(max, cs);
    var cut := |cs| - |kept|;
    assert cs == cs[..cut] + kept;
    BytesAppend(cs[..cut], kept);
    TotalIsLength(kept);
  }

  /** The retained bytes are a suffix of everything ever pushed, even where one push alone exceeds the bound. */
  lemma {:induction false} RetainedBytesAreSuffix(max: nat, pushes: seq<Chunk>)
    ensures IsSuffix(Bytes(Retained(max, pushes)), Bytes(pushes))
    ensures |Bytes(Retained(max, pushes))| <= max
  {
    hide Evict, StoredAll, IsSuffix;
    EvictedBytes(max, StoredAll(max, pushes));
    if pushes == [] {
      NothingStored(max);
    } else {
      var n := |pushes| - 1;
      var old_, c := pushes[..n], pushes[n];
      assert pushes == old_ + [c];
      BytesAppend(old_, [c]);
      assert Bytes([c]) == c.bytes;
      RetainedBytesAreSuffix(max, old_);
      RetainedPush(max, old_, c);
    }
  }

  lemma NothingStored(max: nat)
    ensures StoredAll(max, []) == []
  {
  }

  lemma RetainedSnoc(max: nat, pushes: seq<Chunk>, c: Chunk)
    ensures Retained(max, pushes + [c]) == Evict(max, Retained(max, pushes) + Stored(max, c))
  {
    hide Evict, StoredAll, Stored;
    StoredAllSnoc(max, pushes, c);
    EvictThenPush(max, StoredAll(max, pushes), Stored(max, c));
  }

  /** The bytes of what one push stores: the push itself, or the part of it that can be kept. */
  lemma StoredBytes(max: nat, c: Chunk)
    ensures IsSuffix(Bytes(Stored(max, c)), c.bytes)
    ensures Bytes(Stored(max, c)) == c.bytes || |Bytes(Stored(max, c))| == max
  {
    if c.bytes != [] {
      assert Bytes([Chunk(c.ts, Tail(c.bytes, max))]) == Tail(c.bytes, max) + Bytes([]);
    }
  }

  /** `kept` is a suffix of `before + s`, `before` of `all`, and `s` of the pushed `c`, all of it unless it fills the buffer. */
  lemma SuffixOfPush(max: nat, kept: seq<byte>, before: seq<byte>, s: seq<byte>, all: seq<byte>, c: seq<byte>)
    requires IsSuffix(kept, before + s) && |kept| <= max && IsSuffix(before, all) && IsSuffix(s, c)
    requires s == c || |s| == max
    ensures IsSuffix(kept, all + c)
  {
    if s == c {
      SuffixAfterAppend(before, all, c);
      hide IsSuffix;
      SuffixOfSuffix(kept, before + s, all + c);
    } else {
      ShortSuffix(kept, before, s);
      assert IsSuffix(c, all + c);
      hide IsSuffix;
      SuffixOfSuffix(kept, s, c);
      SuffixOfSuffix(kept, c, all + c);
    }
  }

  lemma RetainedPush(max: nat, pushes: seq<Chunk>, c: Chunk)
    requires IsSuffix(Bytes(Retained(max, pushes)), Bytes(pushes))
    ensures Retained(max, pushes + [c]) == Evict(max, Retained(max, pushes) + Stored(max, c))
    ensures IsSuffix(Bytes(Retained(max, pushes + [c])), Bytes(pushes) + c.bytes)
  {
    hide Evict, StoredAll, Stored, Retained, Bytes, IsSuffix;
    var before, s := Retained(max, pushes), Stored(max, c);
    RetainedSnoc(max, pushes, c);
    EvictedBytes(max, before + s);
    BytesAppend(before, s);
    StoredBytes(max, c);
    SuffixOfPush(max, Bytes(Retained(max, pushes + [c])), Bytes(before), Bytes(s), Bytes(pushes), c.bytes);
  }

  // ---------- readSince ----------

  function After(cs: seq<Chunk>, since: int): seq<Chunk> {
    if cs == [] then []
    else (if cs[0].ts > since then [cs[0]] else []) + After(cs[1..], since)
  }

  function Latest(cs: seq<Chunk>, since: int): (t: int)
    ensures t >= since
  {
    if cs == [] then since
    else
      var t := Latest(cs[..|cs| - 1], since);
      if cs[|cs| - 1].ts > t then cs[|cs| - 1].ts else t
  }

  lemma {:induction false} AfterAppend(xs: seq<Chunk>, ys: seq<Chunk>, since: int)
    ensures After(xs + ys, since) == After(xs, since) + After(ys, since)
  {
    if xs == [] {
      assert xs + ys == ys;
    } else {
      assert (xs + ys)[1..] == xs[1..] + ys;
      AfterAppend(xs[1..], ys, since);
    }
  }

  ghost predicate NoneLater(cs: seq<Chunk>, t: int) {
    forall i | 0 <= i < |cs| :: cs[i].ts <= t
  }

  ghost predicate AllLater(cs: seq<Chunk>, t: int) {
    forall i | 0 <= i < |cs| :: cs[i].ts > t
  }

  ghost predicate InOrder(cs: seq<Chunk>) {
    forall i, j | 0 <= i < j < |cs| :: cs[i].ts <= cs[j].ts
  }

  lemma {:induction false} AfterNone(cs: seq<Chunk>, since: int)
    requires NoneLater(cs, since)
    ensures After(cs, since) == []
  {
    if cs != [] {
      AfterNone(cs[1..], since);
    }
  }

  /** A read sees only what was pushed since the previous read, whatever older chunks are still retained. */
  lemma {:induction false} ReadSeesOnlyNew(max: nat, older: seq<Chunk>, newer: seq<Chunk>, since: int)
    requires NoneLater(older, since)
    ensures After(Evict(max, older + newer), since) == After(Evict(max, newer), since)
  {
    if older == [] {
      assert older + newer == newer;
    } else if Total(older + newer) > max {
      assert (older + newer)[1..] == older[1..] + newer;
      ReadSeesOnlyNew(max, older[1..], newer, since);
    } else {
      TotalAppend(older, newer);
      AfterAppend(older, newer, since);
      AfterNone(older, since);
    }
  }

  lemma {:induction false} LatestIsLast(cs: seq<Chunk>, since: int)
    requires InOrder(cs) && cs != []
    ensures Latest(cs, since) == if cs[|cs| - 1].ts > since then cs[|cs| - 1].ts else since
  {
    var front := cs[..|cs| - 1];
    if front != [] {
      LatestIsLast(front, since);
    }
  }

  lemma {:induction false} StoredTimes(max: nat, pushes: seq<Chunk>, t: int)
    requires InOrder(pushes)
    ensures InOrder(StoredAll(max, pushes))
    ensures NoneLater(pushes, t) ==> NoneLater(StoredAll(max, pushes), t)
    ensures forall i | 0 <= i < |StoredAll(max, pushes)| ::
              pushes != [] && StoredAll(max, pushes)[i].ts <= pushes[|pushes| - 1].ts
  {
    if pushes != [] {
      StoredTimes(max, pushes[..|pushes| - 1], t);
    }
  }

  lemma {:induction false} LastFits(max: nat, pushes: seq<Chunk>)
    requires StoredAll(max, pushes) != []
    ensures var all := StoredAll(max, pushes); Total(all[|all| - 1..]) <= max
  {
    var n := |pushes| - 1;
    var all := StoredAll(max, pushes);
    if pushes[n].bytes == [] {
      assert all == StoredAll(max, pushes[..n]);
      LastFits(max, pushes[..n]);
    } else {
      assert all[|all| - 1..] == Stored(max, pushes[n]);
    }
  }

  /** The most recent chunk is never evicted. */
  lemma LastIsKept(max: nat, pushes: seq<Chunk>)
    requires StoredAll(max, pushes) != []
    ensures var all, kept := StoredAll(max, pushes), Retained(max, pushes);
            && 0 < |kept| <= |all| && kept == all[|all| - |kept|..]
  {
    hide Evict, StoredAll;
    EvictKeepsLongestSuffix(max, StoredAll(max, pushes));
    LastFits(max, pushes);
  }

  lemma InOrderSuffix(cs: seq<Chunk>, k: nat)
    requires InOrder(cs) && k <= |cs|
    ensures InOrder(cs[k..])
  {
  }

  /** After a read, every chunk pushed so far is at or before the timestamp it returned. */
  lemma LatestCoversAll(max: nat, pushes: seq<Chunk>, since: int)
    requires InOrder(pushes)
    ensures NoneLater(StoredAll(max, pushes), Latest(Retained(max, pushes), since))
  {
    StoredTimes(max, pushes, since);
    hide Evict, StoredAll, Retained, Latest;
    var all, kept := StoredAll(max, pushes), Retained(max, pushes);
    if all != [] {
      LastIsKept(max, pushes);
      InOrderSuffix(all, |all| - |kept|);
      LatestIsLast(kept, since);
    }
  }

  lemma {:induction false} AfterAll(cs: seq<Chunk>, since: int)
    requires AllLater(cs, since)
    ensures After(cs, since) == cs
  {
    if cs != [] {
      AfterAll(cs[1..], since);
      assert cs == [cs[0]] + cs[1..];
    }
  }

  /** With times in order, what is later than a given time is the end of the list. */
  lemma {:induction false} AfterIsSuffix(cs: seq<Chunk>, since: int) returns (cut: nat)
    requires InOrder(cs)
    ensures cut <= |cs| && After(cs, since) == cs[cut..]
    ensures NoneLater(cs[..cut], since) && AllLater(cs[cut..], since)
  {
    if cs == [] {
      cut := 0;
    } else if cs[0].ts > since {
      assert AllLater(cs, since);
      AfterAll(cs, since);
      cut := 0;
      assert cs[..0] == [] && cs[0..] == cs;
    } else {
      InOrderSuffix(cs, 1);
      var k := AfterIsSuffix(cs[1..], since);
      assert [] + After(cs[1..], since) == After(cs[1..], since);
      cut := k + 1;
      hide After, InOrder;
      assert cs[1..][k..] == cs[cut..] && cs[..cut] == [cs[0]] + cs[1..][..k];
    }
  }

  lemma AfterOne(c: Chunk, since: int)
    ensures After([c], since) == if c.ts > since then [c] else []
  {
  }

  /** Storing and selecting by time commute. */
  lemma {:induction false} StoredAfter(max: nat, pushes: seq<Chunk>, since: int)
    ensures After(StoredAll(max, pushes), since) == StoredAll(max, After(pushes, since))
  {
    if pushes != [] {
      var n := |pushes| - 1;
      var front, c := pushes[..n], pushes[n];
      assert pushes == front + [c];
      StoredAfter(max, front, since);
      AfterAppend(front, [c], since);
      AfterAppend(StoredAll(max, front), Stored(max, c), since);
      AfterOne(c, since);
      if c.bytes != [] {
        AfterOne(Stored(max, c)[0], since);
      }
      hide After, StoredAll;
      if c.ts > since {
        StoredAllSnoc(max, After(front, since), c);
      } else {
        assert After(front, since) + [] == After(front, since);
        assert StoredAll(max, After(front, since)) + [] == StoredAll(max, After(front, since));
      }
    }
  }

  // ---------- polling: feed the returned timestamp back ----------

  /** One read: the timestamp it was given and the bytes it returned. */
  datatype Read = Read(since: int, bytes: seq<byte>)

  /** Successive reads, when `batches[k]` is pushed between read k-1 and read k and each read is given the timestamp of the one before. */
  function Polls(max: nat, cap: nat, pushed: seq<Chunk>, since: int, batches: seq<seq<Chunk>>): (rs: seq<Read>)
    ensures |rs| == |batches|
    decreases |batches|
  {
    if batches == [] then []
    else
      var now := pushed + batches[0];
      var cs := Retained(max, now);
      [Read(since, Tail(Bytes(After(cs, since)), cap))] + Polls(max, cap, now, Latest(cs, since), batches[1..])
  }

  function Returned(rs: seq<Read>): seq<byte> {
    if rs == [] then [] else rs[0].bytes + Returned(rs[1..])
  }

  function AllPushed(batches: seq<seq<Chunk>>): seq<Chunk> {
    if batches == [] then [] else batches[0] + AllPushed(batches[1..])
  }

  /**
   The read returns what a buffer would hold, up to the cap, if only the pushes of the batch
   that are later than the given time had ever been made; so a contiguous end of the batch's
   bytes, and all bytes of those pushes if they fit.
   */
  ghost predicate OwnBatch(max: nat, cap: nat, batch: seq<Chunk>, r: Read) {
    var newer := After(batch, r.since);
    && r.bytes == Tail(Bytes(Retained(max, newer)), cap)
    && IsSuffix(r.bytes, Bytes(newer)) && IsSuffix(Bytes(newer), Bytes(batch))
    && |r.bytes| <= max && |r.bytes| <= cap
    && (Total(newer) <= max && Total(newer) <= cap ==> r.bytes == Bytes(newer))
  }

  lemma {:induction false} StoredWhole(max: nat, pushes: seq<Chunk>)
    requires Total(pushes) <= max
    ensures Bytes(StoredAll(max, pushes)) == Bytes(pushes)
  {
    if pushes != [] {
      var n := |pushes| - 1;
      assert pushes == pushes[..n] + [pushes[n]];
      TotalAppend(pushes[..n], [pushes[n]]);
      BytesAppend(pushes[..n], [pushes[n]]);
      StoredWhole(max, pushes[..n]);
      BytesAppend(StoredAll(max, pushes[..n]), Stored(max, pushes[n]));
      assert Bytes([pushes[n]]) == pushes[n].bytes;
    }
  }

  lemma RetainedWhole(max: nat, pushes: seq<Chunk>)
    requires Total(pushes) <= max
    ensures Bytes(Retained(max, pushes)) == Bytes(pushes)
  {
    StoredWhole(max, pushes);
    TotalIsLength(pushes);
    TotalIsLength(StoredAll(max, pushes));
    EvictNothing(max, StoredAll(max, pushes));
    hide Evict, StoredAll, Bytes, Total;
  }

  lemma EvictNothing(max: nat, cs: seq<Chunk>)
    requires Total(cs) <= max
    ensures Evict(max, cs) == cs
  {
  }

  lemma EvictedLater(max: nat, cs: seq<Chunk>, since: int)
    requires AllLater(cs, since)
    ensures After(Evict(max, cs), since) == Evict(max, cs)
  {
    EvictKeepsLongestSuffix(max, cs);
    var kept := Evict(max, cs);
    assert forall i | 0 <= i < |kept| :: kept[i] == cs[|cs| - |kept| + i];
    AfterAll(kept, since);
  }

  lemma SelectedStored(max: nat, older: seq<Chunk>, stored: seq<Chunk>, since: int)
    requires NoneLater(older, since) && InOrder(stored)
    ensures After(Evict(max, older + stored), since) == Evict(max, After(stored, since))
  {
    var cut := AfterIsSuffix(stored, since);
    var before, newer := stored[..cut], stored[cut..];
    assert stored == before + newer;
    hide Evict, After, NoneLater, AllLater, InOrder;
    ReadSeesOnlyNew(max, older, stored, since);
    ReadSeesOnlyNew(max, before, newer, since);
    EvictedLater(max, newer, since);
  }

  /** The chunks a read selects are those that the batch's later pushes alone would leave. */
  lemma ReadSelects(max: nat, pushed: seq<Chunk>, batch: seq<Chunk>, since: int)
    requires NoneLater(StoredAll(max, pushed), since) && InOrder(batch)
    ensures After(Retained(max, pushed + batch), since) == Retained(max, After(batch, since))
  {
    StoredTimes(max, batch, since);
    hide Evict, StoredAll, After, NoneLater, InOrder;
    StoredAllAppend(max, pushed, batch);
    StoredAfter(max, batch, since);
    SelectedStored(max, StoredAll(max, pushed), StoredAll(max, batch), since);
  }

  lemma TailIsSuffix(bs: seq<byte>, n: nat)
    ensures IsSuffix(Tail(bs, n), bs) && |Tail(bs, n)| <= n
    ensures |bs| <= n ==> Tail(bs, n) == bs
  {
  }

  lemma AfterBytesSuffix(cs: seq<Chunk>, since: int)
    requires InOrder(cs)
    ensures IsSuffix(Bytes(After(cs, since)), Bytes(cs))
  {
    var cut := AfterIsSuffix(cs, since);
    hide After;
    assert cs == cs[..cut] + cs[cut..];
    BytesAppend(cs[..cut], cs[cut..]);
  }

  /** The capped end of what some pushes leave. */
  lemma CappedEnd(max: nat, cap: nat, newer: seq<Chunk>)
    ensures var r := Tail(Bytes(Retained(max, newer)), cap);
            && IsSuffix(r, Bytes(newer)) && |r| <= max && |r| <= cap
            && (Total(newer) <= max && Total(newer) <= cap ==> r == Bytes(newer))
  {
    hide Retained, Bytes, Tail, IsSuffix, Total;
    var kept := Bytes(Retained(max, newer));
    RetainedBytesAreSuffix(max, newer);
    TailIsSuffix(kept, cap);
    SuffixOfSuffix(Tail(kept, cap), kept, Bytes(newer));
    SuffixLength(Tail(kept, cap), kept);
    if Total(newer) <= max {
      RetainedWhole(max, newer);
      TotalIsLength(newer);
    }
  }

  /** One read, for every batch: it returns bytes of this batch only. */
  lemma ReadExactlyNew(max: nat, cap: nat, pushed: seq<Chunk>, batch: seq<Chunk>, since: int)
    requires NoneLater(StoredAll(max, pushed), since) && InOrder(batch)
    ensures OwnBatch(max, cap, batch, Read(since, Tail(Bytes(After(Retained(max, pushed + batch), since)), cap)))
  {
    ReadSelects(max, pushed, batch, since);
    hide OwnBatch, Retained, After, Bytes, Tail;
    EndOfLaterPushes(max, cap, batch, since);
  }

  lemma EndOfLaterPushes(max: nat, cap: nat, batch: seq<Chunk>, since: int)
    requires InOrder(batch)
    ensures OwnBatch(max, cap, batch, Read(since, Tail(Bytes(Retained(max, After(batch, since))), cap)))
  {
    AfterBytesSuffix(batch, since);
    CappedEnd(max, cap, After(batch, since));
    hide Retained, After, Bytes, Tail, IsSuffix, Total;
  }

  lemma SuffixLength(a: seq<byte>, b: seq<byte>)
    requires IsSuffix(a, b)
    ensures |a| <= |b| && (|a| == |b| ==> a == b)
  {
  }

  ghost predicate OwnBatches(max: nat, cap: nat, batches: seq<seq<Chunk>>, rs: seq<Read>) {
    |rs| == |batches| && forall k | 0 <= k < |rs| :: OwnBatch(max, cap, batches[k], rs[k])
  }

  lemma {:induction false} PollsOwnBatches(max: nat, cap: nat, pushed: seq<Chunk>, since: int, batches: seq<seq<Chunk>>)
    requires InOrder(pushed + AllPushed(batches)) && NoneLater(StoredAll(max, pushed), since)
    ensures OwnBatches(max, cap, batches, Polls(max, cap, pushed, since, batches))
    decreases |batches|
  {
    if batches != [] {
      hide Retained, StoredAll, InOrder, After, Latest, Tail, Bytes, OwnBatch;
      var now, rest := pushed + batches[0], batches[1..];
      assert pushed + AllPushed(batches) == now + AllPushed(rest);
      InOrderPrefix(now, AllPushed(rest));
      InOrderTail(pushed, batches[0]);
      LatestCoversAll(max, now, since);
      ReadExactlyNew(max, cap, pushed, batches[0], since);
      PollsOwnBatches(max, cap, now, Latest(Retained(max, now), since), rest);
    }
  }

  lemma InOrderPrefix(xs: seq<Chunk>, ys: seq<Chunk>)
    requires InOrder(xs + ys)
    ensures InOrder(xs)
  {
    var all := xs + ys;
    forall i, j | 0 <= i < j < |xs| ensures xs[i].ts <= xs[j].ts {
      assert all[i] == xs[i] && all[j] == xs[j];
    }
  }

  lemma InOrderTail(xs: seq<Chunk>, ys: seq<Chunk>)
    requires InOrder(xs + ys)
    ensures InOrder(ys)
  {
    InOrderSuffix(xs + ys, |xs|);
    assert (xs + ys)[|xs|..] == ys;
  }

  /**
   For every sequence of batches with times in order, whatever their sizes and the cap: read k
   returns a contiguous end of the bytes pushed between read k-1 and read k, and no others. So
   no byte is ever returned twice, and what is skipped is exactly what came too early, was
   evicted, or exceeds the cap.
   */
  lemma ReadsNeverRepeat(max: nat, cap: nat, since: int, batches: seq<seq<Chunk>>)
    requires InOrder(AllPushed(batches))
    ensures OwnBatches(max, cap, batches, Polls(max, cap, [], since, batches))
  {
    assert [] + AllPushed(batches) == AllPushed(batches);
    assert NoneLater([], since);
    NothingStored(max);
    PollsOwnBatches(max, cap, [], since, batches);
  }

  /** The batch fits the buffer and the cap, and each of its non-empty pushes is strictly later than the timestamp the read was given. */
  ghost predicate Whole(max: nat, cap: nat, batch: seq<Chunk>, since: int) {
    && Total(batch) <= max && Total(batch) <= cap
    && forall i | 0 <= i < |batch| && batch[i].bytes != [] :: batch[i].ts > since
  }

  lemma {:induction false} AfterBytes(cs: seq<Chunk>, since: int)
    ensures |Bytes(After(cs, since))| <= |Bytes(cs)|
    ensures |Bytes(After(cs, since))| == |Bytes(cs)|
            <==> forall i | 0 <= i < |cs| && cs[i].bytes != [] :: cs[i].ts > since
  {
    if cs != [] {
      var rest := cs[1..];
      AfterBytes(rest, since);
      AfterAppend([cs[0]], rest, since);
      AfterOne(cs[0], since);
      assert [cs[0]] + rest == cs;
      BytesAppend(After([cs[0]], since), After(rest, since));
      assert Bytes([cs[0]]) == cs[0].bytes + Bytes([]);
      hide After;
      assert forall i | 1 <= i < |cs| :: cs[i] == rest[i - 1];
    }
  }

  /** A read is the whole of its batch exactly when the batch fits and is late enough. */
  lemma WholeExactly(max: nat, cap: nat, batch: seq<Chunk>, r: Read)
    requires OwnBatch(max, cap, batch, r)
    ensures |r.bytes| <= |Bytes(batch)|
    ensures |r.bytes| == |Bytes(batch)| <==> Whole(max, cap, batch, r.since)
    ensures |r.bytes| == |Bytes(batch)| ==> r.bytes == Bytes(batch)
  {
    var newer := After(batch, r.since);
    AfterBytes(batch, r.since);
    TotalIsLength(batch);
    TotalIsLength(newer);
    hide After, Bytes, Total, Retained, Tail;
    SuffixLength(r.bytes, Bytes(newer));
    SuffixLength(Bytes(newer), Bytes(batch));
  }

  ghost predicate AllWhole(max: nat, cap: nat, batches: seq<seq<Chunk>>, rs: seq<Read>)
    requires |rs| == |batches|
  {
    forall k | 0 <= k < |rs| :: Whole(max, cap, batches[k], rs[k].since)
  }

  lemma {:induction false} ReturnedLength(max: nat, cap: nat, batches: seq<seq<Chunk>>, rs: seq<Read>)
    requires OwnBatches(max, cap, batches, rs)
    ensures |Returned(rs)| <= |Bytes(AllPushed(batches))|
    ensures |Returned(rs)| == |Bytes(AllPushed(batches))| <==> AllWhole(max, cap, batches, rs)
    ensures |Returned(rs)| == |Bytes(AllPushed(batches))| ==> Returned(rs) == Bytes(AllPushed(batches))
    decreases |rs|
  {
    if rs != [] {
      var later, news := batches[1..], rs[1..];
      hide OwnBatch, Whole, Bytes;
      assert OwnBatches(max, cap, later, news);
      ReturnedLength(max, cap, later, news);
      hide AllWhole, OwnBatches;
      WholeExactly(max, cap, batches[0], rs[0]);
      BytesAppend(batches[0], AllPushed(later));
      AllWholeSplit(max, cap, batches, rs);
      LengthOfParts(rs[0].bytes, Bytes(batches[0]), Returned(news), Bytes(AllPushed(later)));
    }
  }

  lemma LengthOfParts(a: seq<byte>, b: seq<byte>, c: seq<byte>, d: seq<byte>)
    requires |a| <= |b| && |c| <= |d| && (|a| == |b| ==> a == b) && (|c| == |d| ==> c == d)
    ensures |a + c| <= |b + d| && (|a + c| == |b + d| <==> |a| == |b| && |c| == |d|)
    ensures |a + c| == |b + d| ==> a + c == b + d
  {
  }

  lemma AllWholeSplit(max: nat, cap: nat, batches: seq<seq<Chunk>>, rs: seq<Read>)
    requires |rs| == |batches| > 0
    ensures AllWhole(max, cap, batches, rs)
            <==> Whole(max, cap, batches[0], rs[0].since) && AllWhole(max, cap, batches[1..], rs[1..])
  {
    hide Whole;
    assert forall k | 1 <= k < |rs| :: batches[k] == batches[1..][k - 1] && rs[k] == rs[1..][k - 1];
  }

  /**
   Incremental reading with its exact condition, for every sequence of batches with times in
   order: the reads together return every byte pushed, once and in order, if and only if each
   batch fits the buffer and the cap and each push after a read is strictly later than the
   timestamp that read returned.
   */
  lemma IncrementalReads(max: nat, cap: nat, since: int, batches: seq<seq<Chunk>>)
    requires InOrder(AllPushed(batches))
    ensures var rs := Polls(max, cap, [], since, batches);
            Returned(rs) == Bytes(AllPushed(batches)) <==> AllWhole(max, cap, batches, rs)
  {
    ReadsNeverRepeat(max, cap, since, batches);
    hide Polls, OwnBatch, Whole, Bytes, Returned, AllPushed, InOrder;
    ReturnedLength(max, cap, batches, Polls(max, cap, [], since, batches));
  }

  /** Pushes no later than the timestamp fed back are in no read: not in their own, and the others return their own batches. */
  lemma SameMillisecondIsLost(max: nat, cap: nat, since: int, batches: seq<seq<Chunk>>, k: nat)
    requires InOrder(AllPushed(batches)) && k < |batches|
    requires NoneLater(batches[k], Polls(max, cap, [], since, batches)[k].since)
    ensures var rs := Polls(max, cap, [], since, batches);
            && rs[k].bytes == []
            && forall j | 0 <= j < |rs| :: IsSuffix(rs[j].bytes, Bytes(batches[j]))
  {
    ReadsNeverRepeat(max, cap, since, batches);
    var rs := Polls(max, cap, [], since, batches);
    hide Polls, InOrder, AllPushed;
    forall j | 0 <= j < |rs| ensures IsSuffix(rs[j].bytes, Bytes(batches[j])) {
      assert OwnBatch(max, cap, batches[j], rs[j]);
      hide OwnBatches;
      SuffixOfSuffix(rs[j].bytes, Bytes(After(batches[j], rs[j].since)), Bytes(batches[j]));
    }
    assert OwnBatch(max, cap, batches[k], rs[k]);
    AfterNone(batches[k], rs[k].since);
    hide OwnBatches, Retained, Tail;
  }

  /** The failing family is not empty: a byte pushed in the millisecond of the read before it, whatever follows. */
  lemma LostByte(max: nat, cap: nat, first: byte, second: byte, ts: int, since: int, more: seq<seq<Chunk>>)
    requires max >= 1 && cap >= 1 && since < ts
    requires InOrder([Chunk(ts, [first]), Chunk(ts, [second])] + AllPushed(more))
    ensures var rs := Polls(max, cap, [], since, [[Chunk(ts, [first])], [Chunk(ts, [second])]] + more);
            && rs[0].bytes == [first] && rs[1].bytes == []
            && forall j | 0 <= j < |more| :: IsSuffix(rs[j + 2].bytes, Bytes(more[j]))
  {
    var a, b := Chunk(ts, [first]), Chunk(ts, [second]);
    var batches := [[a], [b]] + more;
    assert AllPushed(batches) == [a, b] + AllPushed(more) by {
      assert batches[1..] == [[b]] + more && batches[1..][1..] == more;
      assert [a] + ([b] + AllPushed(more)) == [a, b] + AllPushed(more);
    }
    var rs := Polls(max, cap, [], since, batches);
    FirstReads(max, cap, since, a, batches);
    hide Polls, AllPushed, InOrder, Retained, Tail;
    SameMillisecondIsLost(max, cap, since, batches, 1);
    forall j | 0 <= j < |more| ensures IsSuffix(rs[j + 2].bytes, Bytes(more[j])) {
      assert batches[j + 2] == more[j];
    }
  }

  lemma FirstReads(max: nat, cap: nat, since: int, a: Chunk, batches: seq<seq<Chunk>>)
    requires max >= 1 && cap >= 1 && since < a.ts && |a.bytes| == 1 && |batches| >= 2 && batches[0] == [a]
    ensures var rs := Polls(max, cap, [], since, batches);
            rs[0].bytes == a.bytes && rs[1].since == a.ts
  {
    assert [] + [a] == [a];
    assert Retained(max, [a]) == [a] by {
      StoredAllSnoc(max, [], a);
      assert [] + [a] == [a];
      assert [] + Stored(max, a) == [a];
      assert Total([a]) == 1 + Total([]);
    }
    AfterOne(a, since);
    assert Bytes([a]) == a.bytes + Bytes([]);
    hide Retained, After;
    assert Latest([a], since) == a.ts by {
      assert [a][..0] == [];
    }
  }

  // ---------- the class ----------

  lemma TotalSnoc(cs: seq<Chunk>, c: Chunk)
    ensures Total(cs + [c]) == Total(cs) + |c.bytes|
  {
    TotalAppend(cs, [c]);
  }

  lemma LatestSnoc(cs: seq<Chunk>, c: Chunk)
    ensures forall t :: Latest(cs + [c], t) == if c.ts > Latest(cs, t) then c.ts else Latest(cs, t)
  {
    assert (cs + [c])[..|cs|] == cs;
  }

  /** What one push means for the retained chunks, the newest timestamp and the size. */
  lemma PushLemma(max: nat, pushes: seq<Chunk>, c: Chunk)
    ensures var all, kept := StoredAll(max, pushes + [c]), Retained(max, pushes + [c]);
            var newest := Latest(StoredAll(max, pushes), 0);
            && LongestFittingSuffix(max, all, kept)
            && IsSuffix(Bytes(kept), Bytes(pushes + [c]))
            && Total(kept) == |Bytes(kept)| <= max
            && if c.bytes == [] then
                 kept == Retained(max, pushes) && Latest(all, 0) == newest
               else
                 && kept == Evict(max, Retained(max, pushes) + [Chunk(c.ts, Tail(c.bytes, max))])
                 && Latest(all, 0) == if c.ts > newest then c.ts else newest
  {
    hide Evict, Latest;
    RetainedBytesAreSuffix(max, pushes);
    RetainedBytesAreSuffix(max, pushes + [c]);
    RetainedPush(max, pushes, c);
    TotalIsLength(Retained(max, pushes + [c]));
    EvictKeepsLongestSuffix(max, StoredAll(max, pushes + [c]));
    StoredAllSnoc(max, pushes, c);
    if c.bytes == [] {
      assert StoredAll(max, pushes) + [] == StoredAll(max, pushes);
    } else {
      LatestSnoc(StoredAll(max, pushes), Chunk(c.ts, Tail(c.bytes, max)));
    }
  }

  class RingBuffer {
    const maxBytes: nat
    var chunks: seq<Chunk>
    var totalBytes: nat
    var latestTs: int
    /** Everything ever pushed. */
    ghost var pushes: seq<Chunk>

    ghost predicate Valid()
      reads this
    {
      && chunks == Retained(maxBytes, pushes)
      && totalBytes == Total(chunks)
      && latestTs == Latest(StoredAll(maxBytes, pushes), 0)
    }

    constructor (maxBytes: nat)
      ensures Valid() && pushes == [] && this.maxBytes == maxBytes
    {
      this.maxBytes := maxBytes;
      chunks, totalBytes, latestTs, pushes := [], 0, 0, [];
    }

    method PushChunk(bytes: seq<byte>, ts: int)
      requires Valid()
      modifies this
      ensures Valid() && pushes == old(pushes) + [Chunk(ts, bytes)]
      ensures chunks == Evict(maxBytes, old(chunks) + Stored(maxBytes, Chunk(ts, bytes)))
      ensures LongestFittingSuffix(maxBytes, StoredAll(maxBytes, pushes), chunks)
      ensures IsSuffix(Bytes(chunks), Bytes(pushes)) && Size() == |Bytes(chunks)| <= maxBytes
    {
      hide Evict, StoredAll, Stored, LongestFittingSuffix, IsSuffix, Bytes, Total, Latest, Retained;
      ghost var c := Chunk(ts, bytes);
      PushLemma(maxBytes, pushes, c);
      RetainedSnoc(maxBytes, pushes, c);
      pushes := pushes + [c];
      if |bytes| == 0 {
        return;
      }
      var payload := bytes;
      if |bytes| > maxBytes {
        payload := bytes[|bytes| - maxBytes..];
      }
      TotalSnoc(chunks, Chunk(ts, payload));
      chunks := chunks + [Chunk(ts, payload)];
      totalBytes := totalBytes + |payload|;
      if ts > latestTs {
        latestTs := ts;
      }
      EvictOldest();
    }

    /** The private `evict` loop. */
    method EvictOldest()
      requires totalBytes == Total(chunks)
      modifies this`chunks, this`totalBytes
      ensures chunks == Evict(maxBytes, old(chunks)) && totalBytes == Total(chunks)
    {
      while totalBytes > maxBytes && |chunks| > 0
        invariant totalBytes == Total(chunks)
        invariant Evict(maxBytes, chunks) == Evict(maxBytes, old(chunks))
        decreases |chunks|
      {
        var dropped := chunks[0];
        chunks := chunks[1..];
        totalBytes := totalBytes - |dropped.bytes|;
      }
    }

    method ReadSince(sinceTs: int, maxReturnBytes: nat) returns (bytes: seq<byte>, latestTimestamp: int)
      ensures bytes == Tail(Bytes(After(chunks, sinceTs)), maxReturnBytes)
      ensures latestTimestamp == Latest(chunks, sinceTs)
    {
      var slices: seq<Chunk> := [];
      var total := 0;
      latestTimestamp := sinceTs;
      for i := 0 to |chunks|
        invariant slices == After(chunks[..i], sinceTs)
        invariant total == Total(slices)
        invariant latestTimestamp == Latest(chunks[..i], sinceTs)
      {
        var c := chunks[i];
        assert chunks[..i + 1] == chunks[..i] + [c];
        AfterAppend(chunks[..i], [c], sinceTs);
        LatestSnoc(chunks[..i], c);
        assert After([c], sinceTs) == if c.ts > sinceTs then [c] else [];
        if c.ts <= sinceTs {
          continue;
        }
        TotalAppend(slices, [c]);
        slices := slices + [c];
        total := total + |c.bytes|;
        if c.ts > latestTimestamp {
          latestTimestamp := c.ts;
        }
      }
      assert chunks[..|chunks|] == chunks;
      bytes := Bytes(slices);
      if |bytes| > maxReturnBytes {
        bytes := bytes[|bytes| - maxReturnBytes..];
      }
    }

    function Size(): nat
      reads this
    {
      totalBytes
    }
  }
}
