/**
 The persisted history mirrors liveness: its entries without an end are exactly the ids of the
 living registered sessions, up to the one event that breaks this.
 */
module DaemonHistory {
  import opened Wrappers
  import opened Decimal
  import opened Daemon
  import opened DaemonInvariants
  import opened DaemonLabels
  import N = Notifications
  import P = Persistence
  import R = Registry
  import S = Session

  ghost predicate AliveAs(heap: seq<S.SessionData>, reg: seq<nat>, id: string) {
    exists i :: 0 <= i < |reg| && reg[i] < |heap| && heap[reg[i]].status == S.Alive && heap[reg[i]].id == id
  }

  /** Every living session is in the registry. */
  ghost predicate NoOrphans(heap: seq<S.SessionData>, reg: seq<nat>) {
    forall h: nat | h < |heap| && heap[h].status == S.Alive :: h in reg
  }

  ghost predicate Mirrors(hist: seq<P.Entry>, heap: seq<S.SessionData>, reg: seq<nat>) {
    && P.DistinctIds(hist)
    && NoOrphans(heap, reg)
    && forall id :: P.OpenIn(hist, id) <==> AliveAs(heap, reg, id)
  }

  ghost predicate Mirrored(st: State) {
    Mirrors(st.hist, st.heap, st.reg)
  }

  /** The hello names this id, as its own or as the one to resume. */
  predicate Claims(m: HelloMsg, id: string) {
    id == m.id || (m.resume != "" && id == m.resume)
  }

  /**
   A hello that creates a session while a living registered one carries its id or its resume id.
   That one is dropped without dying: purged because the probe of its pid failed, or overwritten.
   */
  ghost predicate DropsLiving(st: State, e: Event) {
    && Creates(st, e)
    && exists i :: 0 <= i < |st.reg| && st.reg[i] < |st.heap| && st.heap[st.reg[i]].status == S.Alive
                   && Claims(e.frame.hello, st.heap[st.reg[i]].id)
  }

  // ---------- updates that change nobody's life ----------

  lemma LivesKeepMirror(hist: seq<P.Entry>, heap: seq<S.SessionData>, heap': seq<S.SessionData>, reg: seq<nat>)
    requires Mirrors(hist, heap, reg) && SameLives(heap, heap')
    ensures Mirrors(hist, heap', reg)
  {
    forall id ensures AliveAs(heap', reg, id) <==> AliveAs(heap, reg, id) {
    }
  }

  lemma MarkDeadMirrors(st: State, h: nat, cause: Cause, now: int)
    requires Mirrored(st) && RegOk(st.heap, st.reg)
    ensures Mirrored(MarkDead(st, h, cause, now)) && RegOk(MarkDead(st, h, cause, now).heap, st.reg)
    ensures MarkDead(st, h, cause, now).reg == st.reg
  {
    if h < |st.heap| && st.heap[h].status == S.Alive {
      var s, reason := st.heap[h], ReasonText(cause);
      P.EndCloses(st.hist, s.id, reason, ExitCodeIn(reason), now);
      DeathKeepsReg(st.heap, st.reg, h, now);
      hide P.MarkEnded, P.OpenIn, P.DistinctIds, N.FanoutDead, ReasonText, ExitCodeIn, Clients, Destroyed;
      DeathEndsOne(st.heap, st.reg, h, now);
    }
  }

  lemma DeathEndsOne(heap: seq<S.SessionData>, reg: seq<nat>, h: nat, now: int)
    requires RegOk(heap, reg) && NoOrphans(heap, reg) && h < |heap| && heap[h].status == S.Alive
    ensures var heap' := heap[h := S.Died(heap[h], now)];
            && NoOrphans(heap', reg)
            && forall id :: AliveAs(heap', reg, id) <==> AliveAs(heap, reg, id) && id != heap[h].id
  {
    var heap' := heap[h := S.Died(heap[h], now)];
    assert h in reg;
    var k :| 0 <= k < |reg| && reg[k] == h;
    forall id ensures AliveAs(heap', reg, id) <==> AliveAs(heap, reg, id) && id != heap[h].id {
      if AliveAs(heap', reg, id) {
        var i :| 0 <= i < |reg| && reg[i] < |heap| && heap'[reg[i]].status == S.Alive && heap'[reg[i]].id == id;
        assert i != k && heap[reg[i]].id != heap[reg[k]].id;
      }
      if AliveAs(heap, reg, id) && id != heap[h].id {
        var i :| 0 <= i < |reg| && reg[i] < |heap| && heap[reg[i]].status == S.Alive && heap[reg[i]].id == id;
        assert reg[i] != h && heap'[reg[i]].status == S.Alive;
      }
    }
  }

  // ---------- creation ----------

  lemma AttachMirrors(st: State, c: nat, m: HelloMsg, now: int)
    requires Mirrored(st) && RegOk(st.heap, st.reg) && c < |st.conns| && !AliveAs(st.heap, st.reg, m.id)
    ensures Mirrored(Attach(st, c, m, now))
  {
    var name := R.Resolved(Registered(st.heap, st.reg), RequestedLabel(m), now);
    var s := S.NewData(m.id, name, m.pid, m.startedAt, c, now);
    var heap := RenamedAll(st.heap, st.reg, name, now);
    RenamingKeepsCores(st.heap, st.reg, name, now);
    CoresAreLives(st.heap, heap);
    LivesKeepMirror(st.hist, st.heap, heap, st.reg);
    LivesKeepReg(st.heap, heap, st.reg);
    PutIgnoresRenaming(st.heap, heap, st.reg, m.id, |st.heap|);
    P.AddOpens(st.hist, Meta(s));
    assert !AliveAs(heap, st.reg, m.id);
    hide P.AddOrUpdate, P.OpenIn, P.DistinctIds, N.FanoutAdded, Clients, RenamedAll, R.Resolved, Put, Registered, SameLives, SameCores;
    PutAddsOne(heap, st.reg, s);
  }

  lemma PutAddsOne(heap: seq<S.SessionData>, reg: seq<nat>, s: S.SessionData)
    requires RegOk(heap, reg) && NoOrphans(heap, reg) && s.status == S.Alive && !AliveAs(heap, reg, s.id)
    ensures var heap', reg' := heap + [s], Put(heap, reg, s.id, |heap|);
            && NoOrphans(heap', reg')
            && forall id :: AliveAs(heap', reg', id) <==> AliveAs(heap, reg, id) || id == s.id
  {
    var heap', reg' := heap + [s], Put(heap, reg, s.id, |heap|);
    var ss := Registered(heap, reg);
    var k := R.IndexOfId(ss, s.id);
    assert k.Some? ==> ss[k.value] == heap[reg[k.value]];
    hide R.IndexOfId;
    var j := if k.Some? then k.value else |reg|;
    assert reg'[j] == |heap|;
    forall h: nat | h < |heap'| && heap'[h].status == S.Alive ensures h in reg' {
      if h < |heap| {
        var i :| 0 <= i < |reg| && reg[i] == h;
        assert i != j && reg'[i] == h;
      }
    }
    forall id ensures AliveAs(heap', reg', id) <==> AliveAs(heap, reg, id) || id == s.id {
      if AliveAs(heap, reg, id) {
        var i :| 0 <= i < |reg| && reg[i] < |heap| && heap[reg[i]].status == S.Alive && heap[reg[i]].id == id;
        assert i != j && reg'[i] == reg[i];
      }
      assert heap'[reg'[j]] == s;
    }
  }

  /** Dropping entries of dead sessions from the registry. */
  lemma DroppingDeadMirrors(hist: seq<P.Entry>, heap: seq<S.SessionData>, reg: seq<nat>, sub: seq<nat>)
    requires Mirrors(hist, heap, reg)
    requires forall x | x in sub :: x in reg
    requires forall x | x in reg && x !in sub :: x < |heap| && heap[x].status == S.Dead
    ensures Mirrors(hist, heap, sub)
  {
    forall id ensures AliveAs(heap, sub, id) <==> AliveAs(heap, reg, id) {
      if AliveAs(heap, sub, id) {
        var i :| 0 <= i < |sub| && sub[i] < |heap| && heap[sub[i]].status == S.Alive && heap[sub[i]].id == id;
        var j :| 0 <= j < |reg| && reg[j] == sub[i];
      }
      if AliveAs(heap, reg, id) {
        var j :| 0 <= j < |reg| && reg[j] < |heap| && heap[reg[j]].status == S.Alive && heap[reg[j]].id == id;
        assert reg[j] in sub;
        var i :| 0 <= i < |sub| && sub[i] == reg[j];
      }
    }
  }

  lemma PriorFacts(st: State, m: HelloMsg)
    requires RegOk(st.heap, st.reg)
    ensures Prior(st, m).Some? ==>
              && m.resume != "" && Prior(st, m).value in st.reg && Prior(st, m).value < |st.heap|
              && st.heap[Prior(st, m).value].id == m.resume
    ensures Prior(st, m) == None && m.resume != "" ==> forall i | 0 <= i < |st.reg| :: st.heap[st.reg[i]].id != m.resume
  {
    var ss := Registered(st.heap, st.reg);
    forall i | 0 <= i < |st.reg| ensures ss[i] == st.heap[st.reg[i]] {
    }
    var k := R.IndexOfId(ss, m.resume);
    if k.Some? {
      assert ss[k.value].id == m.resume;
    } else {
      forall i | 0 <= i < |st.reg| ensures st.heap[st.reg[i]].id != m.resume {
        assert ss[i].id != m.resume;
      }
    }
  }

  lemma NoneClaimed(heap: seq<S.SessionData>, reg: seq<nat>, sub: seq<nat>, m: HelloMsg)
    requires forall x | x in sub :: x in reg
    requires forall i | 0 <= i < |reg| && reg[i] < |heap| && heap[reg[i]].status == S.Alive :: !Claims(m, heap[reg[i]].id)
    ensures !AliveAs(heap, sub, m.id)
  {
    forall i | 0 <= i < |sub| && sub[i] < |heap| && heap[sub[i]].status == S.Alive ensures heap[sub[i]].id != m.id {
      assert sub[i] in reg;
      var j :| 0 <= j < |reg| && reg[j] == sub[i];
      assert !Claims(m, heap[reg[j]].id);
    }
  }

  ghost predicate ClaimsNone(st: State, m: HelloMsg) {
    forall i | 0 <= i < |st.reg| && st.reg[i] < |st.heap| && st.heap[st.reg[i]].status == S.Alive ::
      !Claims(m, st.heap[st.reg[i]].id)
  }

  lemma PurgedMirrors(st: State, m: HelloMsg)
    requires RegOk(st.heap, st.reg) && Mirrored(st) && ClaimsNone(st, m)
    ensures var t := Purged(st, m); Mirrored(t) && RegOk(t.heap, t.reg) && !AliveAs(t.heap, t.reg, m.id)
  {
    PriorFacts(st, m);
    var prior := Prior(st, m);
    hide Prior, Without, P.OpenIn, P.DistinctIds;
    if prior.Some? {
      WithoutFacts(st.heap, st.reg, prior.value);
      var k :| 0 <= k < |st.reg| && st.reg[k] == prior.value;
      assert Claims(m, st.heap[st.reg[k]].id);
      DroppingDeadMirrors(st.hist, st.heap, st.reg, Without(st.reg, prior.value));
    }
    NoneClaimed(st.heap, st.reg, Purged(st, m).reg, m);
  }

  lemma CreatingMirrors(st: State, e: Event)
    requires Inv(st) && Mirrored(st) && Creates(st, e) && !DropsLiving(st, e)
    ensures Mirrored(Step(st, e))
  {
    var m := e.frame.hello;
    assert ClaimsNone(st, m);
    PurgedMirrors(st, m);
    PurgedConns(st, m);
    hide Inv, Accepted, Attach, Purged, Mirrored, ClaimsNone, Claims, Resumes, RegOk, AliveAs;
    AttachMirrors(Purged(st, m), e.conn, m, e.now);
  }

  /** A dropped session lives on outside the registry. */
  lemma DroppingOrphans(st: State, e: Event)
    requires Inv(st) && DropsLiving(st, e)
    ensures !Mirrored(Step(st, e))
  {
    var m := e.frame.hello;
    var t := Purged(st, m);
    PriorFacts(st, m);
    var i :| 0 <= i < |st.reg| && st.reg[i] < |st.heap| && st.heap[st.reg[i]].status == S.Alive
             && Claims(m, st.heap[st.reg[i]].id);
    var h := st.reg[i];
    hide Binding, DeathsOk, PeersOk, N.Inv, NewsOk, Accepted;
    DroppedFromReg(st, m, i);
    AttachOrphans(t, e.conn, m, e.now, h);
  }

  lemma DroppedFromReg(st: State, m: HelloMsg, i: nat)
    requires RegOk(st.heap, st.reg) && i < |st.reg| && Claims(m, st.heap[st.reg[i]].id)
    ensures var t := Purged(st, m);
            && t.heap == st.heap && t.conns == st.conns && RegOk(t.heap, t.reg)
            && (st.reg[i] in t.reg ==> st.heap[st.reg[i]].id == m.id)
  {
    PriorFacts(st, m);
    var prior := Prior(st, m);
    hide Prior;
    if prior.Some? {
      WithoutFacts(st.heap, st.reg, prior.value);
      var k :| 0 <= k < |st.reg| && st.reg[k] == prior.value;
      if st.heap[st.reg[i]].id == m.resume {
        assert i == k;
      }
    }
  }

  lemma AttachOrphans(st: State, c: nat, m: HelloMsg, now: int, h: nat)
    requires RegOk(st.heap, st.reg) && c < |st.conns|
    requires h < |st.heap| && st.heap[h].status == S.Alive
    requires h in st.reg ==> st.heap[h].id == m.id
    ensures !Mirrored(Attach(st, c, m, now))
  {
    var t := Attach(st, c, m, now);
    hide N.FanoutAdded, P.AddOrUpdate, R.Resolved, Clients;
    PutReplaces(st.heap, st.reg, m.id, h);
    assert t.heap[h].status == S.Alive && h !in t.reg;
  }

  lemma PutReplaces(heap: seq<S.SessionData>, reg: seq<nat>, id: string, h: nat)
    requires RegOk(heap, reg) && h < |heap| && (h in reg ==> heap[h].id == id)
    ensures h !in Put(heap, reg, id, |heap|)
  {
    var ss, r := Registered(heap, reg), Put(heap, reg, id, |heap|);
    var k := R.IndexOfId(ss, id);
    assert forall i | 0 <= i < |reg| :: ss[i] == heap[reg[i]];
    assert k.Some? ==> ss[k.value].id == id;
    hide R.IndexOfId;
    forall i | 0 <= i < |r| ensures r[i] != h {
      if i < |reg| && reg[i] == h {
        assert ss[i].id == id;
        assert k == Some(i);
      }
    }
  }

  // ---------- the other events ----------

  ghost predicate StillMirrored(st: State, t: State) {
    Mirrored(t) && RegOk(t.heap, st.reg) && t.reg == st.reg
  }

  lemma KillingStaysMirrored(st: State, t: State, h: nat, now: int)
    requires StillMirrored(st, t)
    ensures StillMirrored(st, MarkDead(t, h, PidGone, now))
  {
    MarkDeadMirrors(t, h, PidGone, now);
    hide MarkDead, Mirrored, RegOk;
  }

  lemma {:induction false} PidPollMirrors(st: State, n: nat, gone: set<nat>, now: int)
    requires Mirrored(st) && RegOk(st.heap, st.reg) && n <= |st.reg|
    ensures StillMirrored(st, PidPollFirst(st, n, gone, now))
    decreases n
  {
    hide MarkDead, StillMirrored, Mirrored, RegOk, At;
    if n == 0 {
      MirroredNow(st);
    } else {
      PidPollNext(st, n, gone, now);
      PidPollMirrors(st, n - 1, gone, now);
      hide PidPollFirst;
      KillingStaysMirrored(st, PidPollFirst(st, n - 1, gone, now), st.reg[n - 1], now);
    }
  }

  lemma MirroredNow(st: State)
    requires Mirrored(st) && RegOk(st.heap, st.reg)
    ensures StillMirrored(st, st)
  {
  }

  /** Same history and registry, and nobody's life changed. */
  ghost predicate Quiet(st: State, t: State) {
    t.hist == st.hist && t.reg == st.reg && SameLives(st.heap, t.heap)
  }

  lemma QuietMirrors(st: State, t: State)
    requires Mirrored(st) && Quiet(st, t)
    ensures Mirrored(t)
  {
    LivesKeepMirror(st.hist, st.heap, t.heap, st.reg);
  }

  lemma FrameIsQuiet(st: State, c: nat, f: Frame, now: int)
    requires Reaches(st, c) && !f.Bye? && !Creates(st, Received(c, f, now))
    ensures Quiet(st, Dispatch(st, c, f, now))
  {
    hide MarkDead, Attach, Accepted, Prior, Purged, N.Drained;
  }

  lemma FrameMirrors(st: State, c: nat, f: Frame, now: int)
    requires RegOk(st.heap, st.reg) && Mirrored(st) && Reaches(st, c) && !Creates(st, Received(c, f, now))
    ensures Mirrored(Dispatch(st, c, f, now))
  {
    if !f.Bye? {
      FrameIsQuiet(st, c, f, now);
      QuietMirrors(st, Dispatch(st, c, f, now));
    } else {
      hide RegOk, MarkDead, Mirrors;
      if st.conns[c].session.Some? {
        MarkDeadMirrors(st, st.conns[c].session.value, ByeFrame(f.exitCode), now);
      }
    }
  }

  lemma TickMirrors(st: State, c: nat, now: int)
    requires RegOk(st.heap, st.reg) && Mirrored(st) && c < |st.conns|
    ensures Mirrored(HeartbeatTick(st, c, now))
  {
    hide MarkDead, Mirrors, RegOk;
    var conn := st.conns[c];
    if conn.session.Some? {
      var h := conn.session.value;
      var t := WithSession(st, h, At(st.heap, h).(missedPongs := At(st.heap, h).missedPongs + 1));
      assert Quiet(st, t);
      QuietMirrors(st, t);
      LivesKeepReg(st.heap, t.heap, st.reg);
      MarkDeadMirrors(t, h, HeartbeatLost, now);
    }
  }

  lemma CloseMirrors(st: State, c: nat, now: int)
    requires Inv(st) && Mirrored(st) && c < |st.conns|
    ensures Mirrored(HandleClose(st, c, now))
  {
    var conn := st.conns[c];
    var t := st.(conns := st.conns[c := conn.(heartbeat := false, destroyed := true, closed := true)]);
    assert Mirrored(t) && RegOk(t.heap, t.reg);
    if conn.session.Some? {
      MarkDeadMirrors(t, conn.session.value, PipeClosed, now);
    }
    hide MarkDead, N.Disconnected, WithoutPeer, Inv, Mirrors;
  }

  lemma SweepMirrors(st: State, now: int)
    requires Inv(st) && Mirrored(st)
    ensures Mirrored(st.(reg := Retained(st.heap, st.reg, now)))
  {
    RetainedFacts(st.heap, st.reg, now);
    DroppingDeadMirrors(st.hist, st.heap, st.reg, Retained(st.heap, st.reg, now));
  }

  lemma InjectMirrors(st: State, h: nat, probe: S.Probe, throws: bool, now: int)
    requires Inv(st) && Mirrored(st)
    ensures Mirrored(InjectInto(st, h, probe, throws, now))
  {
    MarkDeadMirrors(st, h, PidGoneInject, now);
    var t := WithSession(st, h, At(st.heap, h).(lastActivityAt := now));
    QuietMirrors(st, t);
    hide MarkDead, Mirrored, WithSession, PipeOpen, Inv;
  }

  /**
   Every event keeps the mirror, except a hello that drops a living session: that one breaks it.
   */
  lemma StepMirrorsExactly(st: State, e: Event)
    requires Inv(st) && Mirrored(st)
    ensures Mirrored(Step(st, e)) <==> !DropsLiving(st, e)
  {
    hide Inv, Mirrored, Mirrors, Dispatch, HeartbeatTick, HandleClose, PidPollFirst, InjectInto, Retained, N.Followup, N.WentIdle, Creates;
    if DropsLiving(st, e) {
      DroppingOrphans(st, e);
    } else if Creates(st, e) {
      CreatingMirrors(st, e);
    } else {
      match e {
        case Received(c, f, now) => if Reaches(st, c) { InvReg(st); FrameMirrors(st, c, f, now); }
        case Tick(c, now) => if Reaches(st, c) { InvReg(st); TickMirrors(st, c, now); }
        case Close(c, now) => if Reaches(st, c) { CloseMirrors(st, c, now); }
        case PidPoll(gone, now) => InvReg(st); PidPollMirrors(st, |st.reg|, gone, now);
        case Sweep(now) => SweepMirrors(st, now);
        case Inject(h, probe, throws, now) => InjectMirrors(st, h, probe, throws, now);
        case _ => QuietMirrors(st, Step(st, e));
      }
    }
  }

  lemma InitialMirrors(file: seq<P.Entry>, start: int)
    requires P.DistinctIds(file)
    ensures Mirrored(Initial(file, start))
  {
    P.LoadedNoneOpen(file, start);
  }

  /** History mirrors liveness over every run from a file with distinct ids in which no hello drops a living session. */
  lemma {:induction false} HistoryMirrorsLiveness(file: seq<P.Entry>, start: int, es: seq<Event>)
    requires P.DistinctIds(file)
    requires forall i | 0 <= i < |es| :: !DropsLiving(Run(Initial(file, start), es[..i]), es[i])
    ensures Mirrored(Run(Initial(file, start), es))
    decreases |es|
  {
    hide Inv, Step, Mirrored, DropsLiving;
    if es == [] {
      InitialMirrors(file, start);
    } else {
      var front, n := es[..|es| - 1], |es| - 1;
      forall i | 0 <= i < |front| ensures !DropsLiving(Run(Initial(file, start), front[..i]), front[i]) {
        assert front[..i] == es[..i];
      }
      HistoryMirrorsLiveness(file, start, front);
      RunKeepsInv(file, start, front);
      StepMirrorsExactly(Run(Initial(file, start), front), es[n]);
    }
  }

  // ---------- the exception is real ----------

  /**
   A hello asks to resume the living session `h`, whose process the probe no longer sees. The
   session is purged and a new one registered under the same id; when the old socket closes,
   the new session's history entry is ended although the new session lives on.
   */
  lemma PurgeEndsLivingEntry(st: State, h: nat, c: nat, m: HelloMsg, now: int, later: int)
    requires Inv(st) && P.DistinctIds(st.hist)
    requires h in st.reg && h < |st.heap| && st.heap[h].status == S.Alive && st.heap[h].id == m.id
    requires Reaches(st, c) && st.conns[c].role == Unknown && Accepted(m)
    requires m.resume == m.id != "" && !ProcessSeen(st.heap[h].pid, m.probe)
    ensures st.heap[h].sock.Some?
    ensures var t := Step(st, Received(c, Hello(m), now));
            var u := Step(t, Close(st.heap[h].sock.value, later));
            && |st.heap| in u.reg && |st.heap| < |u.heap|
            && u.heap[|st.heap|].status == S.Alive && u.heap[|st.heap|].id == m.id
            && !P.OpenIn(u.hist, m.id)
  {
    assert SessionFacts(st.heap[h], h, st.conns);
    var d := st.heap[h].sock.value;
    assert ConnFacts(st.conns[d], d, st.heap) && ConnFacts(st.conns[c], c, st.heap);
    PriorFacts(st, m);
    var k :| 0 <= k < |st.reg| && st.reg[k] == h;
    PriorIs(st, m, k);
    hide Inv, Prior, Accepted, RegOk;
    PurgedThenClosed(Purged(st, m), h, c, d, m, now, later);
  }

  lemma PriorIs(st: State, m: HelloMsg, k: nat)
    requires RegOk(st.heap, st.reg) && k < |st.reg| && st.heap[st.reg[k]].id == m.resume != ""
    ensures Prior(st, m) == Some(st.reg[k])
  {
    PriorFacts(st, m);
    var p := Prior(st, m);
    hide Prior;
    var j :| 0 <= j < |st.reg| && st.reg[j] == p.value;
    assert j == k;
  }

  /** The close of a dropped session's socket ends the entry under its id and touches no other living session. */
  lemma DroppedCloses(t: State, h: nat, g: nat, d: nat, later: int)
    requires P.DistinctIds(t.hist) && h < |t.heap| && g < |t.heap| && g != h
    requires t.heap[h].status == S.Alive && t.heap[h].sock == Some(d) && t.heap[g].status == S.Alive && g in t.reg
    requires Reaches(t, d) && t.conns[d].role == Cb && t.conns[d].session == Some(h)
    ensures var u := Step(t, Close(d, later));
            g in u.reg && g < |u.heap| && u.heap[g] == t.heap[g] && !P.OpenIn(u.hist, t.heap[h].id)
  {
    var reason := ReasonText(PipeClosed);
    P.EndCloses(t.hist, t.heap[h].id, reason, ExitCodeIn(reason), later);
    hide P.MarkEnded, P.OpenIn, P.DistinctIds, N.FanoutDead, Clients, ExitCodeIn, ReasonText;
  }

  lemma PurgedThenClosed(st: State, h: nat, c: nat, d: nat, m: HelloMsg, now: int, later: int)
    requires P.DistinctIds(st.hist)
    requires h < |st.heap| && st.heap[h].status == S.Alive && st.heap[h].id == m.id && st.heap[h].sock == Some(d)
    requires Reaches(st, d) && st.conns[d].role == Cb && st.conns[d].session == Some(h)
    requires c < |st.conns| && c != d
    ensures var u := Step(Attach(st, c, m, now), Close(d, later));
            && |st.heap| in u.reg && |st.heap| < |u.heap|
            && u.heap[|st.heap|].status == S.Alive && u.heap[|st.heap|].id == m.id
            && !P.OpenIn(u.hist, m.id)
  {
    var t := Attach(st, c, m, now);
    var name := R.Resolved(Registered(st.heap, st.reg), RequestedLabel(m), now);
    var s := S.NewData(m.id, name, m.pid, m.startedAt, c, now);
    P.AddOpens(st.hist, Meta(s));
    PutHolds(st.heap, st.reg, m.id, |st.heap|);
    RenamedFacts(st.heap[h], name, now);
    hide P.AddOrUpdate, P.OpenIn, P.DistinctIds, N.FanoutAdded, Put, R.Resolved, R.Renamed, Registered, Clients;
    assert t.heap[h] == st.heap[h] && t.heap[|st.heap|] == s && t.conns[d] == st.conns[d];
    hide Attach, Step;
    DroppedCloses(t, h, |st.heap|, d, later);
  }

  lemma PutHolds(heap: seq<S.SessionData>, reg: seq<nat>, id: string, h: nat)
    ensures h in Put(heap, reg, id, h)
  {
    var k := R.IndexOfId(Registered(heap, reg), id);
    hide R.IndexOfId;
    assert Put(heap, reg, id, h)[if k.Some? then k.value else |reg|] == h;
  }

  /** The visible half of the mirror: the open entries are the ids of the living registered sessions. */
  ghost predicate Agrees(st: State) {
    forall id :: P.OpenIn(st.hist, id) <==> AliveAs(st.heap, st.reg, id)
  }

  /** Overwriting without a purge: a plain hello carries the id of a living session. */
  lemma OverwriteEndsLivingEntry(st: State, h: nat, c: nat, m: HelloMsg, now: int, later: int)
    requires Inv(st) && P.DistinctIds(st.hist)
    requires h in st.reg && h < |st.heap| && st.heap[h].status == S.Alive && st.heap[h].id == m.id
    requires Reaches(st, c) && st.conns[c].role == Unknown && Accepted(m) && m.resume == ""
    ensures st.heap[h].sock.Some?
    ensures var t := Step(st, Received(c, Hello(m), now));
            var u := Step(t, Close(st.heap[h].sock.value, later));
            && |st.heap| in u.reg && |st.heap| < |u.heap|
            && u.heap[|st.heap|].status == S.Alive && u.heap[|st.heap|].id == m.id
            && !P.OpenIn(u.hist, m.id)
  {
    assert SessionFacts(st.heap[h], h, st.conns);
    var d := st.heap[h].sock.value;
    assert ConnFacts(st.conns[d], d, st.heap) && ConnFacts(st.conns[c], c, st.heap);
    assert Prior(st, m) == None && Purged(st, m) == st;
    hide Inv, Prior, Accepted, RegOk, Purged;
    PurgedThenClosed(st, h, c, d, m, now, later);
  }

  lemma CreationThenClosed(st: State, h: nat, c: nat, m: HelloMsg, now: int, later: int)
    requires Inv(st) && P.DistinctIds(st.hist) && Creates(st, Received(c, Hello(m), now))
    requires h < |st.heap| && st.heap[h].status == S.Alive && st.heap[h].id == m.id
    ensures st.heap[h].sock.Some? && !Agrees(Step(Step(st, Received(c, Hello(m), now)), Close(st.heap[h].sock.value, later)))
  {
    assert SessionFacts(st.heap[h], h, st.conns);
    var d := st.heap[h].sock.value;
    assert ConnFacts(st.conns[d], d, st.heap) && ConnFacts(st.conns[c], c, st.heap);
    PurgedRest(st, m);
    hide Inv, Prior, Accepted, RegOk, Purged, Resumes;
    PurgedThenClosed(Purged(st, m), h, c, d, m, now, later);
    LivingWithoutEntry(Step(Step(st, Received(c, Hello(m), now)), Close(d, later)), |st.heap|);
  }

  lemma LivingWithoutEntry(st: State, h: nat)
    requires h in st.reg && h < |st.heap| && st.heap[h].status == S.Alive && !P.OpenIn(st.hist, st.heap[h].id)
    ensures !Agrees(st)
  {
    hide P.OpenIn;
    var i :| 0 <= i < |st.reg| && st.reg[i] == h;
    assert AliveAs(st.heap, st.reg, st.heap[h].id);
  }

  /** The dropped session had another id than the new one: its entry is open at once without a living registered session. */
  lemma PurgedOtherId(st: State, i: nat, c: nat, m: HelloMsg, now: int)
    requires Inv(st) && Mirrored(st) && Creates(st, Received(c, Hello(m), now))
    requires i < |st.reg| && st.reg[i] < |st.heap| && st.heap[st.reg[i]].status == S.Alive
    requires st.heap[st.reg[i]].id == m.resume != m.id && m.resume != ""
    ensures !Agrees(Step(st, Received(c, Hello(m), now)))
  {
    var h := st.reg[i];
    PriorIs(st, m, i);
    WithoutFacts(st.heap, st.reg, h);
    assert AliveAs(st.heap, st.reg, m.resume);
    var t := Purged(st, m);
    assert t == st.(reg := Without(st.reg, h));
    NobodyElse(st.heap, st.reg, h, m.resume);
    hide Inv, Prior, Accepted, Purged, Resumes, Without, AliveAs, RegOk, P.OpenIn, P.DistinctIds, Attach;
    AttachKeepsOpen(t, c, m, now);
    AttachNotAlive(t, c, m, now, m.resume);
  }

  lemma NobodyElse(heap: seq<S.SessionData>, reg: seq<nat>, h: nat, id: string)
    requires RegOk(heap, reg) && h in reg && heap[h].id == id
    ensures !AliveAs(heap, Without(reg, h), id)
  {
    WithoutFacts(heap, reg, h);
    var sub := Without(reg, h);
    hide Without;
    var k :| 0 <= k < |reg| && reg[k] == h;
    forall j | 0 <= j < |sub| ensures heap[sub[j]].id != id {
      assert sub[j] in sub;
      var l :| 0 <= l < |reg| && reg[l] == sub[j];
      assert l != k;
    }
  }

  lemma AttachKeepsOpen(st: State, c: nat, m: HelloMsg, now: int)
    requires P.DistinctIds(st.hist) && c < |st.conns|
    ensures forall id :: P.OpenIn(st.hist, id) ==> P.OpenIn(Attach(st, c, m, now).hist, id)
  {
    var name := R.Resolved(Registered(st.heap, st.reg), RequestedLabel(m), now);
    P.AddOpens(st.hist, Meta(S.NewData(m.id, name, m.pid, m.startedAt, c, now)));
    hide P.AddOrUpdate, P.OpenIn, P.DistinctIds, N.FanoutAdded, R.Resolved, RenamedAll, Put, Registered;
  }

  lemma AttachNotAlive(st: State, c: nat, m: HelloMsg, now: int, id: string)
    requires RegOk(st.heap, st.reg) && c < |st.conns| && id != m.id && !AliveAs(st.heap, st.reg, id)
    ensures !AliveAs(Attach(st, c, m, now).heap, Attach(st, c, m, now).reg, id)
  {
    var t := Attach(st, c, m, now);
    var k := R.IndexOfId(Registered(st.heap, st.reg), m.id);
    hide R.IndexOfId, R.Resolved, P.AddOrUpdate, N.FanoutAdded, Clients, R.Renamed;
    var name := R.Resolved(Registered(st.heap, st.reg), RequestedLabel(m), now);
    forall i | 0 <= i < |t.reg| && t.reg[i] < |t.heap| && t.heap[t.reg[i]].status == S.Alive ensures t.heap[t.reg[i]].id != id {
      if t.reg[i] < |st.heap| {
        RenamedFacts(st.heap[t.reg[i]], name, now);
        assert i < |st.reg| && st.reg[i] == t.reg[i];
      }
    }
  }

  /**
   Every hello that drops a living session shows: the open history entries and the living
   registered sessions disagree right after it, or as soon as the dropped session's socket closes.
   */
  lemma DroppingShows(st: State, e: Event, later: int) returns (h: nat)
    requires Inv(st) && Mirrored(st) && DropsLiving(st, e)
    ensures h in st.reg && h < |st.heap| && st.heap[h].status == S.Alive && st.heap[h].sock.Some?
    ensures Claims(e.frame.hello, st.heap[h].id)
    ensures !Agrees(Step(st, e)) || !Agrees(Step(Step(st, e), Close(st.heap[h].sock.value, later)))
  {
    var m := e.frame.hello;
    var i :| 0 <= i < |st.reg| && st.reg[i] < |st.heap| && st.heap[st.reg[i]].status == S.Alive
             && Claims(m, st.heap[st.reg[i]].id);
    h := st.reg[i];
    assert SessionFacts(st.heap[h], h, st.conns);
    hide Inv, Mirrored, Creates, Step, Agrees;
    if st.heap[h].id == m.id {
      MirrorIsDistinct(st);
      CreationThenClosed(st, h, e.conn, m, e.now, later);
    } else {
      PurgedOtherId(st, i, e.conn, m, e.now);
    }
  }

  lemma MirrorIsDistinct(st: State)
    requires Mirrored(st)
    ensures P.DistinctIds(st.hist)
  {
  }

  const EXAMPLE := HelloMsg(true, "worker", "id", 7, 0, "", S.Exists)

  /** Such a state is reached by three events from an empty daemon. */
  lemma PurgeIsReachable()
    ensures var st := Run(Initial([], 0), [Connect, Received(0, Hello(EXAMPLE), 0), Connect]);
            && Inv(st) && P.DistinctIds(st.hist)
            && st.reg == [0] && |st.heap| == 1 && st.heap[0].status == S.Alive && st.heap[0].id == "id"
            && Reaches(st, 1) && st.conns[1].role == Unknown
            && Accepted(EXAMPLE.(resume := "id")) && !ProcessSeen(st.heap[0].pid, S.Gone)
  {
    var es := [Connect, Received(0, Hello(EXAMPLE), 0), Connect];
    RunKeepsInv([], 0, es);
    hide Inv;
    assert es[..2] == [Connect, Received(0, Hello(EXAMPLE), 0)] && es[..2][..1] == [Connect] && es[..2][..1][..0] == [];
    var a := Initial([], 0).(conns := [NEW_CONN]);
    assert Run(Initial([], 0), es[..2][..1]) == a;
    FirstHello(a, EXAMPLE, 0);
    var b := Step(a, Received(0, Hello(EXAMPLE), 0));
    assert Run(Initial([], 0), es[..2]) == b;
  }

  lemma FirstHello(st: State, m: HelloMsg, now: int)
    requires st.heap == [] && st.reg == [] && st.hist == [] && st.conns == [NEW_CONN] && m == EXAMPLE
    ensures Accepted(m) && Accepted(m.(resume := "id"))
    ensures var t := Step(st, Received(0, Hello(m), now));
            && |t.heap| == 1 && t.heap[0].status == S.Alive && t.heap[0].id == m.id && t.heap[0].pid == m.pid
            && t.reg == [0] && |t.conns| == 1 && P.DistinctIds(t.hist)
  {
    assert R.LabelValid("worker");
    hide R.LabelValid;
    assert Prior(st, m) == None;
    var name := R.Resolved(Registered(st.heap, st.reg), RequestedLabel(m), now);
    var s := S.NewData(m.id, name, m.pid, m.startedAt, 0, now);
    P.AddOpens(st.hist, Meta(s));
    hide P.AddOrUpdate, P.DistinctIds, N.FanoutAdded, R.Resolved, R.Renamed, Clients;
  }
}
