/**
 The request/response correlator of packages/bridge-mcp/src/daemon-client.ts: a request can
 be answered, time out, fail to be sent, or be failed by the socket's or the client's close.
 */
module DaemonClient {
  import opened Wrappers

  type ReqId = string

  datatype How = Answered(ok: bool) | TimedOut | SendFailed | ConnectionClosed | ClientClosed

  datatype Settlement = Settlement(reqId: ReqId, how: How)

  datatype State = State(
    pending: seq<ReqId>,          // the keys of the map, in insertion order
    armed: set<ReqId>,            // requests whose timeout has neither fired nor been cleared
    socket: bool,                 // a usable socket
    // histories
    issued: seq<ReqId>,           // every request whose promise was created
    settled: seq<Settlement>)     // every resolve and reject that was called

  const INITIAL := State([], {}, false, [], [])

  datatype Event =
    | SocketOpen
    | Request(reqId: ReqId, writeOk: bool)
    | Response(reqId: ReqId, ok: bool)
    | Timeout(reqId: ReqId)
    | SocketClose
    | ClientClose

  function Without(q: seq<ReqId>, r: ReqId): seq<ReqId> {
    if q == [] then [] else (if q[0] == r then [] else [q[0]]) + Without(q[1..], r)
  }

  function FailAll(q: seq<ReqId>, how: How): seq<Settlement> {
    seq(|q|, i requires 0 <= i < |q| => Settlement(q[i], how))
  }

  function AfterFailAll(s: State, how: How): State {
    s.(pending := [], armed := s.armed - (set r | r in s.pending), settled := s.settled + FailAll(s.pending, how))
  }

  function AfterRequest(s: State, r: ReqId, writeOk: bool): State {
    if s.socket && writeOk then
      s.(pending := if r in s.pending then s.pending else s.pending + [r], armed := s.armed + {r}, issued := s.issued + [r])
    else
      s.(pending := Without(s.pending, r), armed := s.armed - {r}, issued := s.issued + [r],
         settled := s.settled + [Settlement(r, SendFailed)])
  }

  function AfterResponse(s: State, r: ReqId, ok: bool): State {
    if r !in s.pending then s
    else
      s.(pending := Without(s.pending, r), armed := s.armed - {r},
         settled := s.settled + [Settlement(r, Answered(ok))])
  }

  function AfterTimeout(s: State, r: ReqId): State {
    if r !in s.armed then s
    else
      s.(pending := Without(s.pending, r), armed := s.armed - {r},
         settled := s.settled + [Settlement(r, TimedOut)])
  }

  function Step(s: State, e: Event): State {
    match e
    case SocketOpen => s.(socket := true)
    case Request(r, writeOk) => AfterRequest(s, r, writeOk)
    case Response(r, ok) => AfterResponse(s, r, ok)
    case Timeout(r) => AfterTimeout(s, r)
    case SocketClose => AfterFailAll(s.(socket := false), ConnectionClosed)
    case ClientClose => AfterFailAll(s, ClientClosed).(socket := false)
  }

  function RunFrom(s: State, es: seq<Event>): State
    decreases |es|
  {
    if es == [] then s else Step(RunFrom(s, es[..|es| - 1]), es[|es| - 1])
  }

  function Run(es: seq<Event>): State
    decreases |es|
  {
    RunFrom(INITIAL, es)
  }

  /** Request ids are never reused (they are random UUIDs). */
  ghost predicate FreshIds(es: seq<Event>) {
    forall i, j | 0 <= i < j < |es| :: es[i].Request? && es[j].Request? ==> es[i].reqId != es[j].reqId
  }

  // ---------- what every run keeps ----------

  ghost predicate Distinct(q: seq<ReqId>) {
    forall i, j | 0 <= i < j < |q| :: q[i] != q[j]
  }

  ghost predicate SettledOnce(settled: seq<Settlement>) {
    forall i, j | 0 <= i < j < |settled| :: settled[i].reqId != settled[j].reqId
  }

  ghost predicate IsSettled(s: State, r: ReqId) {
    exists i :: 0 <= i < |s.settled| && s.settled[i].reqId == r
  }

  ghost predicate SettledAs(s: State, r: ReqId, how: How) {
    exists i :: 0 <= i < |s.settled| && s.settled[i] == Settlement(r, how)
  }

  /** `pending` is issued minus settled, with one armed timer each; nothing is settled twice. */
  ghost predicate Inv(s: State) {
    && Distinct(s.pending)
    && SettledOnce(s.settled)
    && (forall r :: r in s.pending <==> r in s.armed)
    && (forall r :: r in s.pending <==> r in s.issued && !IsSettled(s, r))
    && (forall i | 0 <= i < |s.settled| :: s.settled[i].reqId in s.issued)
  }

  lemma {:induction false} WithoutFacts(q: seq<ReqId>, r: ReqId)
    ensures forall x :: x in Without(q, r) <==> x in q && x != r
    ensures Distinct(q) ==> Distinct(Without(q, r))
    ensures r !in q ==> Without(q, r) == q
  {
    if q != [] {
      hide Distinct;
      var tail := Without(q[1..], r);
      WithoutFacts(q[1..], r);
      assert forall x :: x in q <==> x == q[0] || x in q[1..];
      DistinctHead(q[0], q[1..]);
      DistinctHead(q[0], tail);
      assert q == [q[0]] + q[1..];
      assert [] + tail == tail;
    }
  }

  lemma DistinctHead(x: ReqId, q: seq<ReqId>)
    ensures Distinct([x] + q) <==> x !in q && Distinct(q)
  {
    var p := [x] + q;
    assert forall k | 0 <= k < |q| :: p[k + 1] == q[k];
    if Distinct(p) {
      assert p[0] == x;
      assert forall k | 0 <= k < |q| :: q[k] == p[k + 1] != p[0];
      assert forall i, j | 0 <= i < j < |q| :: q[i] == p[i + 1] && q[j] == p[j + 1];
    }
  }

  /** Settling one pending request. */
  lemma SettleOne(s: State, r: ReqId, how: How)
    requires Inv(s) && r in s.pending
    ensures var t := s.(pending := Without(s.pending, r), armed := s.armed - {r},
                        settled := s.settled + [Settlement(r, how)]);
            Inv(t) && SettledAs(t, r, how)
  {
    WithoutFacts(s.pending, r);
    var t := s.(pending := Without(s.pending, r), armed := s.armed - {r}, settled := s.settled + [Settlement(r, how)]);
    assert t.settled[|s.settled|] == Settlement(r, how);
    forall x ensures IsSettled(t, x) <==> IsSettled(s, x) || x == r {
      SettledGrows(s, t, x);
    }
  }

  lemma SettledGrows(s: State, t: State, x: ReqId)
    requires s.settled <= t.settled
    ensures IsSettled(t, x) <==> IsSettled(s, x) || exists i :: |s.settled| <= i < |t.settled| && t.settled[i].reqId == x
  {
    assert forall i | 0 <= i < |s.settled| :: t.settled[i] == s.settled[i];
  }

  /** Failing everything that is pending. */
  lemma SettleAll(s: State, how: How)
    requires Inv(s)
    ensures Inv(AfterFailAll(s, how))
    ensures forall r | r in s.pending :: SettledAs(AfterFailAll(s, how), r, how)
  {
    var t := AfterFailAll(s, how);
    var n := |s.settled|;
    forall i | n <= i < |t.settled| ensures t.settled[i] == Settlement(s.pending[i - n], how) {
    }
    forall k | 0 <= k < |s.pending| ensures t.settled[n + k] == Settlement(s.pending[k], how) {
    }
    forall x ensures IsSettled(t, x) <==> IsSettled(s, x) || x in s.pending {
      SettledGrows(s, t, x);
      if x in s.pending {
        var k :| 0 <= k < |s.pending| && s.pending[k] == x;
        assert t.settled[n + k].reqId == x;
      }
    }
    forall i, j | 0 <= i < j < |t.settled| ensures t.settled[i].reqId != t.settled[j].reqId {
      if j >= n {
        assert t.settled[j].reqId in s.pending;
        if i < n { assert IsSettled(s, t.settled[i].reqId); }
      }
    }
  }

  /** A new request either becomes pending or is settled at once. */
  lemma RequestKeepsInv(s: State, r: ReqId, writeOk: bool)
    requires Inv(s) && r !in s.issued
    ensures Inv(AfterRequest(s, r, writeOk))
    ensures s.socket && writeOk ==> r in AfterRequest(s, r, writeOk).pending
    ensures !(s.socket && writeOk) ==> SettledAs(AfterRequest(s, r, writeOk), r, SendFailed)
  {
    var t := AfterRequest(s, r, writeOk);
    WithoutFacts(s.pending, r);
    assert r !in s.pending && !IsSettled(s, r);
    assert forall x :: x in t.issued <==> x in s.issued || x == r;
    if s.socket && writeOk {
      assert forall x :: IsSettled(t, x) <==> IsSettled(s, x);
      assert forall x :: x in t.pending <==> x in s.pending || x == r;
    } else {
      assert t.settled[|s.settled|] == Settlement(r, SendFailed);
      forall x ensures IsSettled(t, x) <==> IsSettled(s, x) || x == r {
        SettledGrows(s, t, x);
      }
    }
  }

  lemma StepKeepsInv(s: State, e: Event)
    requires Inv(s)
    requires e.Request? ==> e.reqId !in s.issued
    ensures Inv(Step(s, e))
  {
    hide Without, FailAll;
    match e {
      case SocketOpen => InvIgnoresSocket(s, true);
      case Request(r, writeOk) =>
        hide Inv;
        RequestKeepsInv(s, r, writeOk);
      case Response(r, ok) => if r in s.pending { SettleOne(s, r, Answered(ok)); }
      case Timeout(r) => if r in s.armed { SettleOne(s, r, TimedOut); }
      case SocketClose =>
        InvIgnoresSocket(s, false);
        SettleAll(s.(socket := false), ConnectionClosed);
      case ClientClose =>
        SettleAll(s, ClientClosed);
        InvIgnoresSocket(AfterFailAll(s, ClientClosed), false);
    }
  }

  lemma InvIgnoresSocket(s: State, open: bool)
    requires Inv(s)
    ensures Inv(s.(socket := open))
  {
    assert forall x :: IsSettled(s.(socket := open), x) <==> IsSettled(s, x);
  }

  lemma {:induction false} IssuedBefore(es: seq<Event>, r: ReqId)
    requires r in Run(es).issued
    ensures exists i :: 0 <= i < |es| && es[i].Request? && es[i].reqId == r
    decreases |es|
  {
    if es != [] {
      var before, e := es[..|es| - 1], es[|es| - 1];
      if r in Run(before).issued {
        IssuedBefore(before, r);
        var i :| 0 <= i < |before| && before[i].Request? && before[i].reqId == r;
        assert es[i] == before[i];
      }
    }
  }

  /**
   In every interleaving each request is settled at most once, is pending exactly until it is
   settled, and has an armed timer exactly while it is pending; responses that come late or
   for unknown ids settle nothing.
   */
  lemma {:induction false} ExactlyOnce(es: seq<Event>)
    requires FreshIds(es)
    ensures Inv(Run(es))
    decreases |es|
  {
    if es != [] {
      hide Inv, Step;
      var n := |es| - 1;
      ExactlyOnce(es[..n]);
      if es[n].Request? && es[n].reqId in Run(es[..n]).issued {
        IssuedBefore(es[..n], es[n].reqId);
        assert false;
      }
      StepKeepsInv(Run(es[..n]), es[n]);
    } else {
      InitialInv();
    }
  }

  lemma InitialInv()
    ensures Inv(INITIAL)
  {
  }

  // ---------- who settles it ----------

  /** The first event after the request that concerns it, if any. */
  function Fate(after: seq<Event>, r: ReqId): Option<How> {
    if after == [] then None
    else
      var f := Fate(after[..|after| - 1], r);
      if f.Some? then f
      else
        match after[|after| - 1]
        case Response(x, ok) => if x == r then Some(Answered(ok)) else None
        case Timeout(x) => if x == r then Some(TimedOut) else None
        case SocketClose => Some(ConnectionClosed)
        case ClientClose => Some(ClientClosed)
        case _ => None
  }

  lemma SettledAsStays(s: State, e: Event, r: ReqId, how: How)
    requires SettledAs(s, r, how)
    ensures SettledAs(Step(s, e), r, how)
  {
    hide Without;
    var i :| 0 <= i < |s.settled| && s.settled[i] == Settlement(r, how);
    assert Step(s, e).settled[i] == Settlement(r, how);
  }

  lemma PendingStep(s: State, e: Event, r: ReqId)
    requires Inv(s) && r in s.pending && (e.Request? ==> e.reqId !in s.issued)
    ensures match e
            case Response(x, ok) => if x == r then SettledAs(Step(s, e), r, Answered(ok)) else r in Step(s, e).pending
            case Timeout(x) => if x == r then SettledAs(Step(s, e), r, TimedOut) else r in Step(s, e).pending
            case SocketClose => SettledAs(Step(s, e), r, ConnectionClosed)
            case ClientClose => SettledAs(Step(s, e), r, ClientClosed)
            case _ => r in Step(s, e).pending
  {
    match e {
      case SocketOpen =>
      case Request(x, _) => WithoutFacts(s.pending, x);
      case Response(x, ok) =>
        WithoutFacts(s.pending, x);
        if x == r { SettleOne(s, x, Answered(ok)); }
      case Timeout(x) =>
        WithoutFacts(s.pending, x);
        if x == r { SettleOne(s, x, TimedOut); }
      case SocketClose =>
        InvIgnoresSocket(s, false);
        SettleAll(s.(socket := false), ConnectionClosed);
      case ClientClose =>
        SettleAll(s, ClientClosed);
        var t := AfterFailAll(s, ClientClosed);
        SettledAsIgnoresSocket(t, r, ClientClosed);
    }
  }

  lemma SettledAsIgnoresSocket(t: State, r: ReqId, how: How)
    requires SettledAs(t, r, how)
    ensures SettledAs(t.(socket := false), r, how)
  {
    var i :| 0 <= i < |t.settled| && t.settled[i] == Settlement(r, how);
    assert t.(socket := false).settled[i] == Settlement(r, how);
  }

  /**
   The first of the five ways to reach a request is the one that settles it, in every run:
   a failed send at once, otherwise the first response, timeout, socket close or client close
   after it; with none of these it is still pending.
   */
  lemma {:induction false} FirstEventSettles(before: seq<Event>, r: ReqId, writeOk: bool, after: seq<Event>)
    requires FreshIds(before + [Request(r, writeOk)] + after)
    ensures var s := Run(before + [Request(r, writeOk)] + after);
            if !(Run(before).socket && writeOk) then SettledAs(s, r, SendFailed)
            else if Fate(after, r).Some? then SettledAs(s, r, Fate(after, r).value)
            else r in s.pending
    decreases |after|
  {
    hide Step, Inv, SettledAs;
    var es := before + [Request(r, writeOk)] + after;
    var start := before + [Request(r, writeOk)];
    if after == [] {
      assert es == start && start[..|before|] == before && start[|before|] == Request(r, writeOk);
      FreshPrefix(es, |before|);
      ExactlyOnce(before);
      NotIssued(es, |before|);
      RequestOutcome(Run(before), r, writeOk);
    } else {
      var n := |after| - 1;
      var shorter := start + after[..n];
      assert es[..|es| - 1] == shorter && es[|es| - 1] == after[n];
      FreshPrefix(es, |shorter|);
      FirstEventSettles(before, r, writeOk, after[..n]);
      ExactlyOnce(shorter);
      if after[n].Request? {
        NotIssued(es, |shorter|);
      }
      var s := Run(shorter);
      if !(Run(before).socket && writeOk) {
        SettledAsStays(s, after[n], r, SendFailed);
      } else if Fate(after[..n], r).Some? {
        SettledAsStays(s, after[n], r, Fate(after[..n], r).value);
      } else {
        PendingStep(s, after[n], r);
      }
    }
  }

  lemma RequestOutcome(s: State, r: ReqId, writeOk: bool)
    requires Inv(s) && r !in s.issued
    ensures if s.socket && writeOk then r in Step(s, Request(r, writeOk)).pending
            else SettledAs(Step(s, Request(r, writeOk)), r, SendFailed)
  {
    hide Inv;
    RequestKeepsInv(s, r, writeOk);
  }

  lemma FreshPrefix(es: seq<Event>, n: nat)
    requires FreshIds(es) && n <= |es|
    ensures FreshIds(es[..n])
  {
  }

  lemma NotIssued(es: seq<Event>, n: nat)
    requires FreshIds(es) && n < |es| && es[n].Request?
    ensures es[n].reqId !in Run(es[..n]).issued
  {
    hide Run;
    if es[n].reqId in Run(es[..n]).issued {
      IssuedBefore(es[..n], es[n].reqId);
      assert false;
    }
  }

  // ---------- the class ----------

  class DaemonClient {
    var pending: seq<ReqId>
    var timers: set<ReqId>
    var socket: bool
    var closed: bool
    ghost var issued: seq<ReqId>
    ghost var settled: seq<Settlement>

    ghost function View(): State
      reads this
    {
      State(pending, timers, socket, issued, settled)
    }

    constructor ()
      ensures View() == INITIAL && !closed
    {
      pending, timers, socket, closed, issued, settled := [], {}, false, false, [], [];
    }

    /** doConnect has a socket. */
    method OnConnected()
      modifies this
      ensures View() == Step(old(View()), SocketOpen)
    {
      socket := true;
    }

    /** request() once it is connected: the promise, its timer, and the write. */
    method SendRequest(reqId: ReqId, writeOk: bool)
      modifies this
      ensures View() == Step(old(View()), Request(reqId, writeOk))
    {
      issued := issued + [reqId];
      timers := timers + {reqId};
      if reqId !in pending {
        pending := pending + [reqId];
      }
      if !socket || !writeOk {
        DeleteAppended(old(pending), reqId);
        timers := timers - {reqId};
        pending := Without(pending, reqId);
        settled := settled + [Settlement(reqId, SendFailed)];
      }
    }

    method Dispatch(reqId: ReqId, ok: bool)
      modifies this
      ensures View() == Step(old(View()), Response(reqId, ok))
    {
      if reqId !in pending {
        return;
      }
      timers := timers - {reqId};
      pending := Without(pending, reqId);
      settled := settled + [Settlement(reqId, Answered(ok))];
    }

    method OnTimeout(reqId: ReqId)
      requires reqId in timers
      modifies this
      ensures View() == Step(old(View()), Timeout(reqId))
    {
      timers := timers - {reqId};
      pending := Without(pending, reqId);
      settled := settled + [Settlement(reqId, TimedOut)];
    }

    method FailAllPending(how: How)
      modifies this`pending, this`timers, this`settled
      ensures View() == AfterFailAll(old(View()), how)
    {
      var i := 0;
      while i < |pending|
        invariant i <= |pending| && pending == old(pending)
        invariant timers == old(timers) - (set r | r in pending[..i])
        invariant settled == old(settled) + FailAll(pending[..i], how)
      {
        assert pending[..i + 1] == pending[..i] + [pending[i]];
        timers := timers - {pending[i]};
        settled := settled + [Settlement(pending[i], how)];
        i := i + 1;
      }
      assert pending[..i] == pending;
      pending := [];
    }

    method OnSocketClose()
      modifies this
      ensures View() == Step(old(View()), SocketClose)
    {
      socket := false;
      FailAllPending(ConnectionClosed);
    }

    method Close()
      modifies this
      ensures View() == Step(old(View()), ClientClose) && closed
    {
      closed := true;
      FailAllPending(ClientClosed);
      socket := false;
    }
  }

  lemma {:induction false} DeleteAppended(q: seq<ReqId>, r: ReqId)
    ensures Without(q + [r], r) == Without(q, r)
  {
    if q == [] {
      assert [] + [r] == [r] && [r][1..] == [];
    } else {
      assert (q + [r])[1..] == q[1..] + [r];
      DeleteAppended(q[1..], r);
    }
  }

  // ---------- when requests can be sent ----------

  /** Some connection was opened after which neither it nor the client closed. */
  ghost predicate Usable(es: seq<Event>) {
    exists i :: 0 <= i < |es| && es[i].SocketOpen? && forall j | i < j < |es| :: !es[j].SocketClose? && !es[j].ClientClose?
  }

  lemma UsableSnoc(es: seq<Event>)
    requires es != []
    ensures var e := es[|es| - 1];
            Usable(es) <==> e.SocketOpen? || (Usable(es[..|es| - 1]) && !e.SocketClose? && !e.ClientClose?)
  {
    var n := |es| - 1;
    var front := es[..n];
    assert forall k | 0 <= k < n :: front[k] == es[k];
    if Usable(front) && !es[n].SocketClose? && !es[n].ClientClose? {
      var i :| 0 <= i < |front| && front[i].SocketOpen? && forall j | i < j < |front| :: !front[j].SocketClose? && !front[j].ClientClose?;
      assert es[i].SocketOpen? && forall j | i < j < |es| :: !es[j].SocketClose? && !es[j].ClientClose?;
    }
    if Usable(es) && !es[n].SocketOpen? {
      var i :| 0 <= i < |es| && es[i].SocketOpen? && forall j | i < j < |es| :: !es[j].SocketClose? && !es[j].ClientClose?;
      assert i < n && front[i].SocketOpen?;
    }
  }

  /** A request can be sent exactly while the last connection opened is still there. */
  lemma {:induction false} SocketIsUsable(es: seq<Event>)
    ensures Run(es).socket <==> Usable(es)
    decreases |es|
  {
    if es != [] {
      hide Usable, FailAll, Without;
      SocketIsUsable(es[..|es| - 1]);
      UsableSnoc(es);
    }
  }

  /** So a request made while connected, whose write succeeds, is pending until one of the other ways reaches it; made otherwise it fails at once. */
  lemma RequestIsPending(before: seq<Event>, r: ReqId, writeOk: bool)
    requires FreshIds(before + [Request(r, writeOk)])
    ensures var s := Run(before + [Request(r, writeOk)]);
            if Usable(before) && writeOk then r in s.pending && !IsSettled(s, r) else SettledAs(s, r, SendFailed)
  {
    SocketIsUsable(before);
    var es := before + [Request(r, writeOk)];
    assert es + [] == es;
    ExactlyOnce(es);
    assert es[..|es| - 1] == before;
    hide Usable;
    if !(Usable(before) && writeOk) {
      assert Run(es).settled[|Run(before).settled|] == Settlement(r, SendFailed);
    }
  }
}
