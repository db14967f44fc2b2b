/**
 The race-protected inject of packages/bridged/src/inject.ts, polled against a clock, and
 what its silence test says about real keystrokes given the throttled notifications of
 packages/cb/src/pipe-client.ts.
 */
module Inject {
  import opened Wrappers
  import opened Constants
  import opened Session

  const USER_INPUT_THROTTLE_MS: nat := 200

  /**
   What the code reads of the outside world at its k-th poll. Each poll runs without
   interruption; between polls anything may happen to the session.
   */
  datatype Observation = Observation(
    now: int, status: Status, lastUserInputAt: int, pipeOpen: bool, probe: Probe, writeThrows: bool)
  {
    function SilentFor(): int {
      now - lastUserInputAt
    }
  }

  type Timeline = nat -> Observation

  datatype Outcome = Written(n: nat) | UserActive(silentMs: int) | SessionDead

  datatype AuditRecord = AuditRecord(bytes: nat)

  /** What one run leaves behind: frames on the pipe and lines in the audit log. */
  datatype Effects = Effects(frames: nat, audits: seq<AuditRecord>)

  function Wait(need: int, silentFor: int): (w: int)
    ensures 1 <= w <= 200
    ensures 1 <= need - silentFor <= 200 ==> w == need - silentFor
    ensures need - silentFor > 200 ==> w == 200
  {
    var m := if need - silentFor > 1 then need - silentFor else 1;
    if m < 200 then m else 200
  }

  /** Sleeping takes time; nothing else is asked of the clock. */
  ghost predicate ClockAdvances(tl: Timeline) {
    forall k: nat :: tl(k).now < tl(k + 1).now
  }

  /** Sleeps last exactly as long as asked. */
  ghost predicate ExactSleeps(tl: Timeline, need: int) {
    forall k: nat :: tl(k + 1).now == tl(k).now + Wait(need, tl(k).SilentFor())
  }

  /** How doInject ends, given whether a frame goes into the pipe. */
  ghost predicate Concludes(writes: bool, n: nat, r: Outcome, fx: Effects) {
    && fx.frames == (if writes then 1 else 0)
    && r == (if writes && n > 0 then Written(n) else SessionDead)
    && fx.audits == (if writes && n > 0 then [AuditRecord(n)] else [])
  }

  predicate FrameGoesOut(o: Observation) {
    Writes(o.status, o.pipeOpen, o.probe, o.writeThrows)
  }

  method DoInject(o: Observation, n: nat) returns (r: Outcome, fx: Effects)
    ensures Concludes(FrameGoesOut(o), n, r, fx)
  {
    if o.status == Dead || !o.pipeOpen {
      return SessionDead, Effects(0, []);
    }
    var d := InjectDecision(o.status, o.pipeOpen, o.probe, o.writeThrows, n);
    if d.written == 0 {
      return SessionDead, Effects(if d.frameWritten then 1 else 0, []);
    }
    return Written(d.written), Effects(1, [AuditRecord(d.written)]);
  }

  /** The same on the session object itself: the frame counted is the one that its socket gets. */
  method DoInjectInto(s: Session, bytes: seq<byte>, probe: Probe, writeThrows: bool, now: int) returns (r: Outcome, fx: Effects)
    modifies s, s.pipeClient
    ensures var open := old(s.pipeClient != null && !s.pipeClient.destroyed);
            Concludes(Writes(old(s.status), open, probe, writeThrows), |bytes|, r, fx)
    ensures fx.frames == 1 ==> old(s.pipeClient) != null
    ensures old(s.pipeClient) != null ==>
              old(s.pipeClient).injects == old(s.pipeClient.injects) + if fx.frames == 1 then [Base64.Encode(bytes)] else []
  {
    if s.status == Dead || s.pipeClient == null || s.pipeClient.destroyed {
      return SessionDead, Effects(0, []);
    }
    var d := s.Inject(bytes, probe, writeThrows, now);
    if d.written == 0 {
      return SessionDead, Effects(if d.frameWritten then 1 else 0, []);
    }
    return Written(d.written), Effects(1, [AuditRecord(d.written)]);
  }

  function Need(waitForUserIdleMs: Option<int>): int {
    if waitForUserIdleMs.Some? then waitForUserIdleMs.value else DEFAULT_WAIT_FOR_USER_IDLE_MS
  }

  /** The poll goes on to write: it finds the session alive and, unless forced, the user silent long enough in time. */
  predicate Proceeds(tl: Timeline, force: bool, need: int, k: nat) {
    && tl(k).status == Alive
    && (force || (tl(k).now < tl(0).now + USER_IDLE_HARD_CAP_MS && tl(k).SilentFor() >= need))
  }

  /**
   How tryInject may end on a timeline. `polls` counts the polls that found the user active;
   poll number `polls` is the one that decided.
   */
  ghost predicate EndsWith(tl: Timeline, n: nat, force: bool, need: int, r: Outcome, fx: Effects, polls: nat) {
    var deadline := tl(0).now + USER_IDLE_HARD_CAP_MS;
    var o := tl(polls);
    && (force ==> polls == 0)
    && (forall k | 0 <= k < polls :: tl(k).now < deadline && tl(k).SilentFor() < need && tl(k).status == Alive)
    && fx.frames == (if Proceeds(tl, force, need, polls) && FrameGoesOut(o) then 1 else 0)
    && (r.SessionDead? <==> o.status == Dead || (Proceeds(tl, force, need, polls) && !(FrameGoesOut(o) && n > 0)))
    && (r.UserActive? <==> !force && o.status == Alive && o.now >= deadline)
    && (r.UserActive? ==> polls > 0 && r.silentMs == o.SilentFor())
    && (r == Written(n) && n > 0 <==> fx == Effects(1, [AuditRecord(n)]))
    && (r.Written? <==> fx.frames == 1 && n > 0)
    && (!r.Written? ==> fx.audits == [])
    && (ExactSleeps(tl, need) ==> o.now < deadline + 200)
  }

  method TryInject(tl: Timeline, n: nat, force: bool, waitForUserIdleMs: Option<int>)
    returns (r: Outcome, fx: Effects, polls: nat)
    requires ClockAdvances(tl)
    ensures EndsWith(tl, n, force, if waitForUserIdleMs.Some? then waitForUserIdleMs.value else 1500, r, fx, polls)
  {
    polls := 0;
    if tl(0).status == Dead {
      return SessionDead, Effects(0, []), 0;
    }
    if force {
      r, fx := DoInject(tl(0), n);
      return;
    }
    var need := Need(waitForUserIdleMs);
    var deadline := tl(0).now + USER_IDLE_HARD_CAP_MS;
    while tl(polls).now < deadline
      invariant tl(polls).status == Alive
      invariant polls == 0 || tl(polls - 1).now < deadline
      invariant forall k | 0 <= k < polls :: tl(k).now < deadline && tl(k).SilentFor() < need && tl(k).status == Alive
      invariant ExactSleeps(tl, need) ==> tl(polls).now < deadline + 200
      decreases deadline - tl(polls).now
    {
      var silentFor := tl(polls).SilentFor();
      if silentFor >= need {
        r, fx := DoInject(tl(polls), n);
        return;
      }
      assert tl(polls).now < tl(polls + 1).now;
      polls := polls + 1;
      if tl(polls).status == Dead {
        return SessionDead, Effects(0, []), polls;
      }
    }
    return UserActive(tl(polls).SilentFor()), Effects(0, []), polls;
  }

  /**
   The failing family of "success iff a frame was written": whenever a frame went out, the call
   reports a dead session, with no audit line, exactly for an empty payload.
   */
  lemma EmptyPayloadReportsDead(tl: Timeline, n: nat, force: bool, need: int, r: Outcome, fx: Effects, polls: nat)
    requires EndsWith(tl, n, force, need, r, fx, polls)
    ensures r == SessionDead && fx == Effects(1, []) <==> fx.frames == 1 && n == 0
    ensures Proceeds(tl, force, need, polls) && FrameGoesOut(tl(polls)) && n == 0
            ==> r == SessionDead && fx == Effects(1, [])
  {
  }

  // ---------- keystrokes, notifications and silence ----------

  ghost predicate InOrder(ts: seq<int>) {
    forall i, j | 0 <= i < j < |ts| :: ts[i] <= ts[j]
  }

  /** The times at which notifyUserInput really sends, when called at each of `keys`; `last` is lastUserInputSentAt. */
  function Notified(keys: seq<int>, last: int): seq<int> {
    if keys == [] then []
    else if keys[0] - last < USER_INPUT_THROTTLE_MS then Notified(keys[1..], last)
    else [keys[0]] + Notified(keys[1..], keys[0])
  }

  /** The daemon's session after those notifications arrive at once. */
  function Delivered(s: SessionData, sent: seq<int>): SessionData
    decreases |sent|
  {
    if sent == [] then s else Delivered(WithUserInput(s, sent[0], sent[0]), sent[1..])
  }

  /** The throttle never lets the daemon's idea of the last keystroke fall 200 ms behind. */
  lemma {:induction false} ThrottleLag(s: SessionData, keys: seq<int>, last: int)
    requires InOrder(keys) && last >= 0
    requires s.lastUserInputAt == last || (keys != [] && keys[0] - last >= USER_INPUT_THROTTLE_MS)
    ensures var at := Delivered(s, Notified(keys, last)).lastUserInputAt;
            forall i | 0 <= i < |keys| :: at > keys[i] - USER_INPUT_THROTTLE_MS
    ensures var at := Delivered(s, Notified(keys, last)).lastUserInputAt;
            && (s.lastUserInputAt == last ==> at >= last)
            && (keys != [] && keys[0] - last >= USER_INPUT_THROTTLE_MS ==> at >= keys[0])
    decreases |keys|
  {
    if keys != [] {
      var k, rest := keys[0], keys[1..];
      if k - last < USER_INPUT_THROTTLE_MS {
        ThrottleLag(s, rest, last);
      } else {
        assert Notified(keys, last)[1..] == Notified(rest, k);
        ThrottleLag(WithUserInput(s, k, k), rest, k);
      }
      assert forall i | 1 <= i < |keys| :: keys[i] == rest[i - 1];
    }
  }

  /**
   What the silence test means: if the daemon finds the user silent for `need` ms at time
   `t`, every keystroke typed so far is more than `need - 200` ms old. `lastUserInputSentAt`
   starts at 0, so the first keystroke is always reported once the clock is past 200.
   */
  lemma SilenceMeansOldKeystrokes(s: SessionData, keys: seq<int>, t: int, need: int)
    requires InOrder(keys) && keys != [] && keys[0] >= USER_INPUT_THROTTLE_MS
    requires t - Delivered(s, Notified(keys, 0)).lastUserInputAt >= need
    ensures forall i | 0 <= i < |keys| :: t - keys[i] > need - USER_INPUT_THROTTLE_MS
  {
    ThrottleLag(s, keys, 0);
  }

  /** The bound is the best possible. */
  lemma SilenceBoundIsTight(s: SessionData, need: nat)
    ensures var keys, t := [200, 399], 200 + need;
            && InOrder(keys) && keys[0] >= USER_INPUT_THROTTLE_MS
            && t - Delivered(s, Notified(keys, 0)).lastUserInputAt >= need
            && t - keys[1] == need - USER_INPUT_THROTTLE_MS + 1
  {
    var keys := [200, 399];
    assert keys[1..] == [399] && [399][1..] == [];
    assert Notified([399], 200) == [];
    assert Notified(keys, 0) == [200];
    assert [200][1..] == [];
    assert Delivered(s, [200]) == Delivered(WithUserInput(s, 200, 200), []);
  }

  /** At the poll the daemon has handled the notifications of exactly these keystrokes, the first of them after its clock passed 200. */
  ghost predicate Reported(o: Observation, s: SessionData, keys: seq<int>) {
    && InOrder(keys)
    && (keys != [] ==> keys[0] >= USER_INPUT_THROTTLE_MS)
    && o.lastUserInputAt == Delivered(s, Notified(keys, 0)).lastUserInputAt
  }

  /** What race protection gives: if an unforced call writes a frame, every keystroke typed until then is more than `need - 200` ms old. */
  lemma UnforcedFrameMeansOldKeystrokes(tl: Timeline, n: nat, need: int, r: Outcome, fx: Effects, polls: nat,
                                        s: SessionData, keys: seq<int>)
    requires EndsWith(tl, n, false, need, r, fx, polls) && fx.frames == 1
    requires Reported(tl(polls), s, keys)
    ensures forall i | 0 <= i < |keys| :: tl(polls).now - keys[i] > need - USER_INPUT_THROTTLE_MS
  {
    assert tl(polls).SilentFor() >= need;
    if keys != [] {
      SilenceMeansOldKeystrokes(s, keys, tl(polls).now, need);
    }
  }
}
