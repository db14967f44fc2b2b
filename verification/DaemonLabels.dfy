/** Label uniqueness over whole runs of the daemon. */
module DaemonLabels {
  import opened Wrappers
  import opened Decimal
  import opened Daemon
  import opened DaemonInvariants
  import N = Notifications
  import P = Persistence
  import R = Registry
  import S = Session

  ghost predicate LabelsOk(heap: seq<S.SessionData>, reg: seq<nat>) {
    R.LabelsUnique(Registered(heap, reg))
  }

  /** The event is a hello that creates a session. */
  ghost predicate Creates(st: State, e: Event) {
    && e.Received? && e.frame.Hello? && Reaches(st, e.conn) && st.conns[e.conn].role == Unknown
    && Accepted(e.frame.hello) && !Resumes(st, e.frame.hello)
  }

  /** Some living session, which the new one does not replace, holds the label the new one gets. */
  ghost predicate Collides(ss: seq<S.SessionData>, id: string, name: string) {
    exists i :: 0 <= i < |ss| && ss[i].id != id && R.Holds(ss[i], name)
  }

  /** The registered sessions among which a creating hello looks for a label. */
  function Rivals(st: State, m: HelloMsg): seq<S.SessionData> {
    Registered(st.heap, Purged(st, m).reg)
  }

  /** All 9999 candidates for the label are held by living rivals, and the time-stamped one by a session that the new one does not replace. */
  ghost predicate CreatesCollision(st: State, e: Event) {
    && Creates(st, e)
    && var m := e.frame.hello;
       var ss, base := Rivals(st, m), RequestedLabel(m);
       && (forall i | 1 <= i < R.SUFFIX_LIMIT :: R.LabelTaken(ss, R.Candidate(base, i)))
       && Collides(ss, m.id, R.Fallback(base, e.now))
  }

  lemma CollidesIsTaken(ss: seq<S.SessionData>, id: string, name: string)
    requires Collides(ss, id, name)
    ensures R.LabelTaken(ss, name)
  {
  }

  lemma AllTakenMeansFallback(ss: seq<S.SessionData>, base: string, now: int)
    requires forall i | 1 <= i < R.SUFFIX_LIMIT :: R.LabelTaken(ss, R.Candidate(base, i))
    ensures R.Resolved(ss, base, now) == R.Fallback(base, now)
  {
    hide R.LabelTaken, R.Fallback;
    assert R.Candidate(base, 1) == base;
    var r := R.LowestFree(ss, base, 2);
    assert r == None;
  }

  /** The label that resolving yields collides exactly under that guard. */
  lemma ResolvedCollides(ss: seq<S.SessionData>, id: string, base: string, now: int)
    ensures Collides(ss, id, R.Resolved(ss, base, now))
            <==> (forall i | 1 <= i < R.SUFFIX_LIMIT :: R.LabelTaken(ss, R.Candidate(base, i))) && Collides(ss, id, R.Fallback(base, now))
  {
    R.ResolvedCollidesExactly(ss, base, now);
    hide R.LabelTaken, R.Candidate, R.Fallback, R.Resolved;
    if Collides(ss, id, R.Resolved(ss, base, now)) {
      CollidesIsTaken(ss, id, R.Resolved(ss, base, now));
    }
    hide Collides;
    if forall i | 1 <= i < R.SUFFIX_LIMIT :: R.LabelTaken(ss, R.Candidate(base, i)) {
      AllTakenMeansFallback(ss, base, now);
    }
  }

  // ---------- updates that keep labels ----------

  /** Names stay, and nobody comes back to life. */
  ghost predicate Aged(heap: seq<S.SessionData>, heap': seq<S.SessionData>) {
    && |heap'| == |heap|
    && forall h | 0 <= h < |heap| :: heap'[h].name == heap[h].name && (heap'[h].status == S.Alive ==> heap[h].status == S.Alive)
  }

  lemma AgedKeepsLabels(heap: seq<S.SessionData>, heap': seq<S.SessionData>, reg: seq<nat>)
    requires LabelsOk(heap, reg) && Aged(heap, heap') && forall i | 0 <= i < |reg| :: reg[i] < |heap|
    ensures LabelsOk(heap', reg)
  {
    var ss, tt := Registered(heap, reg), Registered(heap', reg);
    forall i | 0 <= i < |reg|
      ensures tt[i].name == ss[i].name && (tt[i].status == S.Alive ==> ss[i].status == S.Alive)
    {
      assert heap'[reg[i]].name == heap[reg[i]].name;
    }
    hide R.Plain;
  }

  lemma SublistKeepsLabels(heap: seq<S.SessionData>, reg: seq<nat>, sub: seq<nat>, p: seq<nat>)
    requires LabelsOk(heap, reg) && Positions(reg, sub, p)
    ensures LabelsOk(heap, sub)
  {
    var ss, tt := Registered(heap, reg), Registered(heap, sub);
    assert forall i | 0 <= i < |sub| :: tt[i] == ss[p[i]];
    hide R.Plain;
  }

  // ---------- a new session ----------

  /** The list of registered sessions after a creation. */
  function Created(ss: seq<S.SessionData>, s: S.SessionData, now: int): seq<S.SessionData> {
    var renamed := seq(|ss|, i requires 0 <= i < |ss| => R.Renamed(ss[i], s.name, now));
    match R.IndexOfId(ss, s.id)
    case None => renamed + [s]
    case Some(k) => renamed[k := s]
  }

  lemma AttachIsCreated(heap: seq<S.SessionData>, reg: seq<nat>, s: S.SessionData, now: int)
    requires RegOk(heap, reg)
    ensures Registered(RenamedAll(heap, reg, s.name, now) + [s], Put(heap, reg, s.id, |heap|))
         == Created(Registered(heap, reg), s, now)
  {
    hide R.Renamed;
    var ss := Registered(heap, reg);
    var k := R.IndexOfId(ss, s.id);
    hide R.IndexOfId;
    var t := Registered(RenamedAll(heap, reg, s.name, now) + [s], Put(heap, reg, s.id, |heap|));
    var c := Created(ss, s, now);
    assert |t| == |c|;
    forall i | 0 <= i < |t| ensures t[i] == c[i] {
      if i < |reg| && k != Some(i) {
        assert reg[i] in reg;
        assert ss[i] == heap[reg[i]];
      }
    }
  }

  lemma RenamedFacts(s: S.SessionData, name: string, now: int)
    ensures var r := R.Renamed(s, name, now);
            && r.status == s.status && r.id == s.id
            && (r.name == name ==> R.Holds(s, name))
            && (r.name != s.name ==> !R.Plain(r.name))
            && (s.status == S.Alive ==> r == s)
  {
    if s.status == S.Dead && s.name == name {
      var r := R.Renamed(s, name, now);
      assert r.name[|name|] == '~';
    }
  }

  ghost predicate CreatedAt(ss: seq<S.SessionData>, s: S.SessionData, now: int, i: nat)
    requires i < |Created(ss, s, now)|
  {
    var t := Created(ss, s, now)[i];
    t == s || (i < |ss| && ss[i].id != s.id && t == R.Renamed(ss[i], s.name, now))
  }

  lemma CreatedElements(ss: seq<S.SessionData>, s: S.SessionData, now: int)
    requires R.DistinctIds(ss)
    ensures var r := Created(ss, s, now);
            && (forall i | 0 <= i < |r| :: CreatedAt(ss, s, now, i))
            && (forall i, j | 0 <= i < j < |r| :: !(r[i] == s && r[j] == s))
            && (forall i | 0 <= i < |ss| && ss[i].id != s.id :: i < |r| && r[i] == R.Renamed(ss[i], s.name, now))
            && (exists i :: 0 <= i < |r| && r[i] == s)
  {
    var r := Created(ss, s, now);
    var k := R.IndexOfId(ss, s.id);
    forall i | 0 <= i < |ss| ensures R.Renamed(ss[i], s.name, now).id == ss[i].id {
      RenamedFacts(ss[i], s.name, now);
    }
    hide R.Renamed, R.IndexOfId;
    assert r[if k.Some? then k.value else |ss|] == s;
  }

  lemma CreationPair(ss: seq<S.SessionData>, s: S.SessionData, now: int, i: nat, j: nat)
    requires R.LabelsUnique(ss) && R.DistinctIds(ss) && R.Plain(s.name) && !Collides(ss, s.id, s.name)
    requires i < j < |Created(ss, s, now)|
    ensures var r := Created(ss, s, now); R.Plain(r[i].name) ==> r[i].name != r[j].name
  {
    CreatedElements(ss, s, now);
    var r := Created(ss, s, now);
    assert CreatedAt(ss, s, now, i) && CreatedAt(ss, s, now, j);
    if i < |ss| { RenamedFacts(ss[i], s.name, now); }
    if j < |ss| { RenamedFacts(ss[j], s.name, now); }
    hide Created, R.Renamed, R.Plain;
  }

  /** Creation keeps labels unique exactly when the label it assigns is free. */
  lemma CreationKeepsLabelsExactly(ss: seq<S.SessionData>, s: S.SessionData, now: int)
    requires R.LabelsUnique(ss) && R.DistinctIds(ss) && R.Plain(s.name) && s.status == S.Alive
    ensures R.LabelsUnique(Created(ss, s, now)) <==> !Collides(ss, s.id, s.name)
  {
    var r := Created(ss, s, now);
    CreatedElements(ss, s, now);
    if Collides(ss, s.id, s.name) {
      var i :| 0 <= i < |ss| && ss[i].id != s.id && R.Holds(ss[i], s.name);
      var j :| 0 <= j < |r| && r[j] == s;
      RenamedFacts(ss[i], s.name, now);
      assert r[i].name == r[j].name && i != j;
    } else {
      forall i, j | 0 <= i < j < |r| ensures R.Plain(r[i].name) ==> r[i].name != r[j].name {
        CreationPair(ss, s, now, i, j);
      }
      forall i | 0 <= i < |r| && r[i].status == S.Alive ensures R.Plain(r[i].name) {
        assert CreatedAt(ss, s, now, i);
        if r[i] != s { RenamedFacts(ss[i], s.name, now); }
      }
    }
  }

  lemma RegisteredDistinct(heap: seq<S.SessionData>, reg: seq<nat>)
    requires RegOk(heap, reg)
    ensures R.DistinctIds(Registered(heap, reg))
  {
  }

  lemma PurgedReg(st: State, m: HelloMsg)
    requires RegOk(st.heap, st.reg) && LabelsOk(st.heap, st.reg)
    ensures Purged(st, m).heap == st.heap && RegOk(st.heap, Purged(st, m).reg) && LabelsOk(st.heap, Purged(st, m).reg)
  {
    var prior := Prior(st, m);
    hide Prior;
    if prior.Some? {
      WithoutFacts(st.heap, st.reg, prior.value);
      var p := WithoutPositions(st.reg, prior.value);
      SublistKeepsLabels(st.heap, st.reg, Without(st.reg, prior.value), p);
    }
  }

  lemma AttachLabels(st: State, c: nat, m: HelloMsg, now: int)
    requires RegOk(st.heap, st.reg) && LabelsOk(st.heap, st.reg) && c < |st.conns| && Accepted(m)
    ensures var t, ss := Attach(st, c, m, now), Registered(st.heap, st.reg);
            LabelsOk(t.heap, t.reg) <==> !Collides(ss, m.id, R.Resolved(ss, RequestedLabel(m), now))
  {
    var ss := Registered(st.heap, st.reg);
    var name := R.Resolved(ss, RequestedLabel(m), now);
    var s := S.NewData(m.id, name, m.pid, m.startedAt, c, now);
    R.ValidLabelIsPlain(RequestedLabel(m));
    R.ResolvedIsPlain(ss, RequestedLabel(m), now);
    RegisteredDistinct(st.heap, st.reg);
    AttachIsCreated(st.heap, st.reg, s, now);
    hide R.Resolved, R.Plain, R.LabelsUnique, R.DistinctIds, RenamedAll, Put, Created, Collides,
         N.FanoutAdded, P.AddOrUpdate, Registered, R.LabelValid;
    CreationKeepsLabelsExactly(ss, s, now);
  }

  lemma CreatingLabels(st: State, e: Event)
    requires Inv(st) && LabelsOk(st.heap, st.reg) && Creates(st, e)
    ensures LabelsOk(Step(st, e).heap, Step(st, e).reg) <==> !CreatesCollision(st, e)
  {
    var m := e.frame.hello;
    PurgedReg(st, m);
    ResolvedCollides(Rivals(st, m), m.id, RequestedLabel(m), e.now);
    hide Binding, DeathsOk, PeersOk, N.Inv, NewsOk, LabelsOk, RegOk, Collides, R.Resolved, Accepted, Resumes, Purged, Attach;
    hide R.LabelTaken, R.Candidate, R.Fallback;
    assert Purged(st, m).conns == st.conns by { PurgedConns(st, m); }
    AttachLabels(Purged(st, m), e.conn, m, e.now);
  }

  lemma PurgedConns(st: State, m: HelloMsg)
    ensures Purged(st, m).conns == st.conns
  {
  }

  /** What a creating hello does. */
  ghost predicate Creation(st: State, t: State, c: nat, m: HelloMsg, now: int) {
    var h, name := |st.heap|, R.Resolved(Rivals(st, m), RequestedLabel(m), now);
    && |t.heap| == h + 1 && t.heap[h] == S.NewData(m.id, name, m.pid, m.startedAt, c, now)
    && (forall g | 0 <= g < h :: t.heap[g] == st.heap[g] || (st.heap[g].status == S.Dead && t.heap[g] == R.Renamed(st.heap[g], name, now)))
    && h in t.reg && (forall x | x in t.reg :: x == h || x in st.reg)
    && (forall x | x in st.reg && x < |st.heap| && st.heap[x].id != m.id && Some(x) != Prior(st, m) :: x in t.reg)
    && (forall e | e in t.hist && e.id != m.id :: e in st.hist)
    && (forall e | e in t.hist && e.id == m.id ::
          P.OpensAs(st.hist, e, P.Entry(m.id, name, m.startedAt, now, None, None, None)))
    && |t.conns| == |st.conns| && c < |t.conns| && t.conns[c].role == Cb && t.conns[c].session == Some(h) && t.conns[c].heartbeat
    && t.deaths == st.deaths && t.peers == st.peers
    && P.OpenIn(t.hist, m.id)
    && t.notif.log == st.notif.log + N.EventLog(Clients(st.peers), st.notif.nextId, m.id, name, N.SessionAdded, now)
  }

  /**
   A hello that does not resume makes one living session under the resolved label, registers
   it, opens its history entry and tells every connected client once; sessions that were
   there are unchanged, except that a dead one may lose the label.
   */
  lemma CreationEffects(st: State, e: Event)
    requires Inv(st) && P.DistinctIds(st.hist) && Creates(st, e)
    ensures Creation(st, Step(st, e), e.conn, e.frame.hello, e.now)
  {
    var m := e.frame.hello;
    PurgedRest(st, m);
    PurgedMembers(st, m);
    hide Inv, Purged, Accepted, Resumes, Prior, R.Renamed, P.OpensAs, P.OpenIn, N.EventLog;
    AttachEffects(Purged(st, m), e.conn, m, e.now);
  }

  lemma PurgedMembers(st: State, m: HelloMsg)
    requires Inv(st)
    ensures forall x :: x in Purged(st, m).reg <==> x in st.reg && Some(x) != Prior(st, m)
  {
    var prior := Prior(st, m);
    hide Prior, Binding, DeathsOk, PeersOk, NewsOk;
    if prior.Some? {
      WithoutFacts(st.heap, st.reg, prior.value);
    }
  }

  lemma PurgedRest(st: State, m: HelloMsg)
    ensures Purged(st, m) == st.(reg := Purged(st, m).reg)
  {
  }

  lemma AttachEffects(st: State, c: nat, m: HelloMsg, now: int)
    requires c < |st.conns| && P.DistinctIds(st.hist)
    ensures var t, h, name := Attach(st, c, m, now), |st.heap|, R.Resolved(Registered(st.heap, st.reg), RequestedLabel(m), now);
            && |t.heap| == h + 1 && t.heap[h] == S.NewData(m.id, name, m.pid, m.startedAt, c, now)
            && (forall g | 0 <= g < h :: t.heap[g] == st.heap[g] || (st.heap[g].status == S.Dead && t.heap[g] == R.Renamed(st.heap[g], name, now)))
            && h in t.reg && (forall x | x in t.reg :: x == h || x in st.reg)
            && (forall x | x in st.reg && x < |st.heap| && st.heap[x].id != m.id :: x in t.reg)
            && (forall e | e in t.hist && e.id != m.id :: e in st.hist)
            && (forall e | e in t.hist && e.id == m.id ::
                  P.OpensAs(st.hist, e, P.Entry(m.id, name, m.startedAt, now, None, None, None)))
            && |t.conns| == |st.conns| && t.conns[c].role == Cb && t.conns[c].session == Some(h) && t.conns[c].heartbeat
            && t.deaths == st.deaths && t.peers == st.peers
            && P.OpenIn(t.hist, m.id)
            && t.notif.log == st.notif.log + N.EventLog(Clients(st.peers), st.notif.nextId, m.id, name, N.SessionAdded, now)
  {
    var name := R.Resolved(Registered(st.heap, st.reg), RequestedLabel(m), now);
    P.AddOpens(st.hist, Meta(S.NewData(m.id, name, m.pid, m.startedAt, c, now)));
    P.AddRecords(st.hist, Meta(S.NewData(m.id, name, m.pid, m.startedAt, c, now)));
    N.FanoutAddedLog(st.notif, Clients(st.peers), m.id, name, now);
    PutMembers(st.heap, st.reg, m.id, |st.heap|);
    hide Put, R.Resolved, R.Renamed, N.FanoutAdded, N.EventLog, P.AddOrUpdate, P.OpenIn, P.DistinctIds, P.OpensAs, Clients, Registered;
  }

  /** Map.set takes the place of the entry with that id, if there is one, and keeps all others. */
  lemma PutMembers(heap: seq<S.SessionData>, reg: seq<nat>, id: string, h: nat)
    ensures var r := Put(heap, reg, id, h);
            && h in r && (forall x | x in r :: x == h || x in reg)
            && (forall x | x in reg && x < |heap| && heap[x].id != id :: x in r)
  {
    var ss, r, k := Registered(heap, reg), Put(heap, reg, id, h), R.IndexOfId(Registered(heap, reg), id);
    hide R.IndexOfId;
    assert r[if k.Some? then k.value else |reg|] == h;
    forall x | x in r ensures x == h || x in reg {
      var i :| 0 <= i < |r| && r[i] == x;
      if i < |reg| && k != Some(i) {
        assert reg[i] == x;
      }
    }
    forall x | x in reg && x < |heap| && heap[x].id != id ensures x in r {
      var i :| 0 <= i < |reg| && reg[i] == x;
      assert ss[i] == heap[x];
      assert r[i] == x;
    }
  }

  // ---------- the other events ----------

  lemma MarkDeadAges(st: State, h: nat, cause: Cause, now: int)
    ensures Aged(st.heap, MarkDead(st, h, cause, now).heap) && MarkDead(st, h, cause, now).reg == st.reg
  {
  }

  lemma {:induction false} PidPollAges(st: State, n: nat, gone: set<nat>, now: int)
    requires n <= |st.reg|
    ensures Aged(st.heap, PidPollFirst(st, n, gone, now).heap) && PidPollFirst(st, n, gone, now).reg == st.reg
    decreases n
  {
    if n > 0 {
      PidPollNext(st, n, gone, now);
      hide MarkDead, PidPollFirst;
      PidPollAges(st, n - 1, gone, now);
      MarkDeadAges(PidPollFirst(st, n - 1, gone, now), st.reg[n - 1], PidGone, now);
    }
  }

  lemma FrameAges(st: State, c: nat, f: Frame, now: int)
    requires c < |st.conns| && !Creates(st, Received(c, f, now)) && Reaches(st, c)
    ensures Aged(st.heap, Dispatch(st, c, f, now).heap) && Dispatch(st, c, f, now).reg == st.reg
  {
    hide MarkDead, Attach, Accepted, Prior, Purged, N.Drained;
    if f.Bye? && st.conns[c].session.Some? {
      MarkDeadAges(st, st.conns[c].session.value, ByeFrame(f.exitCode), now);
    }
  }

  lemma TickAges(st: State, c: nat, now: int)
    requires c < |st.conns|
    ensures Aged(st.heap, HeartbeatTick(st, c, now).heap) && HeartbeatTick(st, c, now).reg == st.reg
  {
    hide MarkDead;
    if st.conns[c].session.Some? {
      var h := st.conns[c].session.value;
      MarkDeadAges(WithSession(st, h, At(st.heap, h).(missedPongs := At(st.heap, h).missedPongs + 1)), h, HeartbeatLost, now);
    }
  }

  lemma CloseAges(st: State, c: nat, now: int)
    requires c < |st.conns|
    ensures Aged(st.heap, HandleClose(st, c, now).heap) && HandleClose(st, c, now).reg == st.reg
  {
    hide MarkDead, N.Disconnected, WithoutPeer;
    if st.conns[c].session.Some? {
      var t := st.(conns := st.conns[c := st.conns[c].(heartbeat := false, destroyed := true, closed := true)]);
      MarkDeadAges(t, st.conns[c].session.value, PipeClosed, now);
    }
  }

  lemma OtherStepsAge(st: State, e: Event)
    requires !Creates(st, e) && !e.Sweep?
    ensures Aged(st.heap, Step(st, e).heap) && Step(st, e).reg == st.reg
  {
    hide Dispatch, HeartbeatTick, HandleClose, PidPollFirst, MarkDead, N.Followup, N.WentIdle, Retained, PipeOpen, Creates;
    match e {
      case Received(c, f, now) => if Reaches(st, c) { FrameAges(st, c, f, now); }
      case Tick(c, now) => if Reaches(st, c) { TickAges(st, c, now); }
      case Close(c, now) => if Reaches(st, c) { CloseAges(st, c, now); }
      case PidPoll(gone, now) => PidPollAges(st, |st.reg|, gone, now);
      case Inject(h, probe, throws, now) => MarkDeadAges(st, h, PidGoneInject, now);
      case _ =>
    }
  }

  /** Every event keeps the registered labels unique, except a hello that collides: that one breaks it. */
  lemma StepKeepsLabelsExactly(st: State, e: Event)
    requires Inv(st) && LabelsOk(st.heap, st.reg)
    ensures LabelsOk(Step(st, e).heap, Step(st, e).reg) <==> !CreatesCollision(st, e)
  {
    if Creates(st, e) {
      CreatingLabels(st, e);
    } else if e.Sweep? {
      var p := RetainedPositions(st.heap, st.reg, e.now);
      SublistKeepsLabels(st.heap, st.reg, Retained(st.heap, st.reg, e.now), p);
    } else {
      OtherStepsAge(st, e);
      AgedKeepsLabels(st.heap, Step(st, e).heap, st.reg);
    }
  }

  /** A collision needs at least 9999 living sessions. */
  lemma CollisionNeedsCrowd(st: State, e: Event)
    requires CreatesCollision(st, e)
    ensures R.AliveCount(Rivals(st, e.frame.hello)) >= R.SUFFIX_LIMIT - 1
  {
    var ss, base := Rivals(st, e.frame.hello), RequestedLabel(e.frame.hello);
    hide Creates, R.AliveCount, Rivals, R.Candidate, R.Fallback, R.LabelTaken, Collides;
    if R.AliveCount(ss) <= R.SUFFIX_LIMIT - 2 {
      R.SomeCandidateFree(ss, base);
    }
  }

  /** At most 9998 sessions live among those a creating hello competes with. */
  ghost predicate Uncrowded(st: State, e: Event) {
    Creates(st, e) ==> R.AliveCount(Rivals(st, e.frame.hello)) <= R.SUFFIX_LIMIT - 2
  }

  /** Label uniqueness in every reachable state. */
  lemma {:induction false} LabelsStayUnique(file: seq<P.Entry>, start: int, es: seq<Event>)
    requires forall i | 0 <= i < |es| :: Uncrowded(Run(Initial(file, start), es[..i]), es[i])
    ensures var st := Run(Initial(file, start), es); LabelsOk(st.heap, st.reg)
    decreases |es|
  {
    if es != [] {
      hide Inv, Step, LabelsOk, CreatesCollision, Creates, R.AliveCount;
      var front, n := es[..|es| - 1], |es| - 1;
      forall i | 0 <= i < |front| ensures Uncrowded(Run(Initial(file, start), front[..i]), front[i]) {
        assert front[..i] == es[..i] && Uncrowded(Run(Initial(file, start), es[..i]), es[i]);
      }
      LabelsStayUnique(file, start, front);
      RunKeepsInv(file, start, front);
      var st := Run(Initial(file, start), front);
      StepKeepsLabelsExactly(st, es[n]);
      assert Uncrowded(st, es[n]);
      if CreatesCollision(st, es[n]) {
        CollidingCreates(st, es[n]);
        CollisionNeedsCrowd(st, es[n]);
        assert false;
      }
    }
  }

  lemma CollidingCreates(st: State, e: Event)
    requires CreatesCollision(st, e)
    ensures Creates(st, e)
  {
  }

  /** In every such state a lookup by a living session's label finds that session, unless the text is also some session's id. */
  lemma LookupFindsTheOne(file: seq<P.Entry>, start: int, es: seq<Event>, key: string, r: Option<nat>, k: nat)
    requires forall i | 0 <= i < |es| :: Uncrowded(Run(Initial(file, start), es[..i]), es[i])
    requires var st := Run(Initial(file, start), es);
             var ss := Registered(st.heap, st.reg);
             && R.FoundBy(ss, key, r)
             && k < |ss| && ss[k].status == S.Alive && ss[k].name == key
             && forall i | 0 <= i < |ss| :: ss[i].id != key
    ensures r == Some(k)
  {
    LabelsStayUnique(file, start, es);
    var st := Run(Initial(file, start), es);
    hide Run, Initial, Uncrowded, R.FoundBy;
    R.LookupByLabelUnique(Registered(st.heap, st.reg), key, r, k);
  }

  // ---------- a collision is reachable ----------

  /** `n` sessions, all living and registered, in the order of their creation, each on a connection of its own. */
  ghost predicate Row(st: State, n: nat) {
    && |st.conns| == n && |st.heap| == n && |st.reg| == n
    && forall i | 0 <= i < n :: st.reg[i] == i && st.heap[i].id == OfNat(i) && st.heap[i].status == S.Alive
  }

  /** Such sessions under one base label. */
  ghost predicate Crowd(st: State, base: string, n: nat) {
    Row(st, n) && forall i | 0 <= i < n :: st.heap[i].name == R.Candidate(base, i + 1)
  }

  function Newcomer(n: nat, name: string): HelloMsg {
    HelloMsg(true, name, OfNat(n), 1, 0, "", S.Exists)
  }

  lemma RowRegistered(st: State, n: nat)
    requires Row(st, n)
    ensures Registered(st.heap, st.reg) == st.heap
  {
    var ss := Registered(st.heap, st.reg);
    assert forall i | 0 <= i < n :: ss[i] == st.heap[i];
  }

  lemma CrowdTakes(st: State, base: string, n: nat, i: nat)
    requires Crowd(st, base, n) && 1 <= i
    ensures R.LabelTaken(st.heap, R.Candidate(base, i)) <==> i <= n
  {
    if i <= n {
      assert R.Holds(st.heap[i - 1], R.Candidate(base, i));
    } else {
      forall k | 0 <= k < n ensures !R.Holds(st.heap[k], R.Candidate(base, i)) {
        R.CandidateInjective(base, k + 1, i);
      }
    }
  }

  lemma LowestIs(ss: seq<S.SessionData>, base: string, n: nat, now: int)
    requires n + 1 < R.SUFFIX_LIMIT
    requires forall i | 1 <= i <= n :: R.LabelTaken(ss, R.Candidate(base, i))
    requires !R.LabelTaken(ss, R.Candidate(base, n + 1))
    ensures R.Resolved(ss, base, now) == R.Candidate(base, n + 1)
  {
    assert R.Candidate(base, 1) == base;
    var r := R.LowestFree(ss, base, 2);
    hide R.LabelTaken, R.Candidate, R.LowestFree, R.Fallback;
    if n > 0 {
      assert r.Some? && r.value == n + 1;
    }
  }

  lemma CrowdResolves(st: State, base: string, n: nat, now: int)
    requires Crowd(st, base, n) && n + 1 < R.SUFFIX_LIMIT
    ensures R.Resolved(st.heap, base, now) == R.Candidate(base, n + 1)
  {
    forall i | 1 <= i <= n + 1 ensures R.LabelTaken(st.heap, R.Candidate(base, i)) <==> i <= n {
      CrowdTakes(st, base, n, i);
    }
    hide Crowd, R.LabelTaken, R.Candidate, R.Resolved, R.LowestFree;
    LowestIs(st.heap, base, n, now);
  }

  lemma NoDeadNoRenaming(heap: seq<S.SessionData>, reg: seq<nat>, name: string, now: int)
    requires forall h | 0 <= h < |heap| :: heap[h].status == S.Alive
    ensures RenamedAll(heap, reg, name, now) == heap
  {
  }

  lemma NewId(ss: seq<S.SessionData>, id: string)
    requires forall i | 0 <= i < |ss| :: ss[i].id != id
    ensures R.IndexOfId(ss, id) == None
  {
  }

  function HelloOf(n: nat, name: string, now: int): Event {
    Received(n, Hello(Newcomer(n, name)), now)
  }

  /** The state after one more connection and its hello. */
  function Joined(st: State, n: nat, name: string, now: int): State {
    Step(Step(st, Connect), HelloOf(n, name, now))
  }

  lemma RowHasNoSuchId(st: State, n: nat)
    requires Row(st, n)
    ensures R.IndexOfId(st.heap, OfNat(n)) == None && Registered(st.heap, st.reg) == st.heap
  {
    RowRegistered(st, n);
    forall i | 0 <= i < n ensures st.heap[i].id != OfNat(n) {
      if OfNat(i) == OfNat(n) { OfNatInjective(i, n); }
    }
    hide OfNat, Registered;
    NewId(st.heap, OfNat(n));
  }

  lemma NewcomerAsks(st: State, n: nat, name: string, now: int)
    requires |st.conns| == n && R.LabelValid(name)
    ensures RequestedLabel(Newcomer(n, name)) == name
    ensures Creates(Step(st, Connect), HelloOf(n, name, now)) && Rivals(Step(st, Connect), Newcomer(n, name)) == Registered(st.heap, st.reg)
    ensures Joined(st, n, name, now) == Attach(Step(st, Connect), n, Newcomer(n, name), now)
  {
    hide R.LabelValid, OfNat, Attach, Registered;
    var u, m := Step(st, Connect), Newcomer(n, name);
    assert name != "" by { ValidIsNotEmpty(name); }
    assert Prior(u, m) == None;
    assert Purged(u, m) == u && !Resumes(u, m) && Accepted(m);
    assert u.conns[n] == NEW_CONN;
    assert Joined(st, n, name, now) == Dispatch(u, n, Hello(m), now) == AcceptCb(u, n, m, now);
  }

  lemma ValidIsNotEmpty(name: string)
    requires R.LabelValid(name)
    ensures name != ""
  {
  }

  /** A newcomer joins under the label that resolving gives. */
  lemma RowGrows(st: State, n: nat, name: string, now: int)
    requires Row(st, n) && R.LabelValid(name)
    ensures Creates(Step(st, Connect), HelloOf(n, name, now)) && Rivals(Step(st, Connect), Newcomer(n, name)) == st.heap
    ensures RequestedLabel(Newcomer(n, name)) == name
    ensures Row(Joined(st, n, name, now), n + 1)
    ensures Joined(st, n, name, now).heap == st.heap + [S.NewData(OfNat(n), R.Resolved(st.heap, name, now), 1, 0, n, now)]
  {
    RowHasNoSuchId(st, n);
    NewcomerAsks(st, n, name, now);
    NoDeadNoRenaming(st.heap, st.reg, R.Resolved(st.heap, name, now), now);
    hide R.LabelValid, R.Resolved, R.IndexOfId, OfNat, N.FanoutAdded, P.AddOrUpdate, RenamedAll, Registered, Clients;
    hide Creates, Rivals, Joined, RequestedLabel;
  }

  lemma CrowdGrows(st: State, base: string, n: nat)
    requires Crowd(st, base, n) && R.LabelValid(base) && n + 1 < R.SUFFIX_LIMIT
    ensures Crowd(Joined(st, n, base, 0), base, n + 1)
  {
    RowGrows(st, n, base, 0);
    CrowdResolves(st, base, n, 0);
    var s := S.NewData(OfNat(n), R.Resolved(st.heap, base, 0), 1, 0, n, 0);
    assert s.name == R.Candidate(base, n + 1);
    hide Joined, R.LabelValid, R.Resolved, OfNat, R.Candidate, Creates, Row, Rivals, S.NewData;
    CrowdNext(st, Joined(st, n, base, 0), base, n, s);
  }

  lemma CrowdNext(st: State, t: State, base: string, n: nat, s: S.SessionData)
    requires Crowd(st, base, n) && Row(t, n + 1) && t.heap == st.heap + [s] && s.name == R.Candidate(base, n + 1)
    ensures Crowd(t, base, n + 1)
  {
    hide R.Candidate;
    assert forall i | 0 <= i < n :: t.heap[i] == st.heap[i];
  }

  lemma RunTwo(st: State, es: seq<Event>, e: Event, f: Event)
    ensures Run(st, es + [e, f]) == Step(Step(Run(st, es), e), f)
  {
    hide Step;
    var all := es + [e, f];
    assert all[..|all| - 1] == es + [e] && (es + [e])[..|es|] == es;
  }

  lemma {:induction false} CrowdRun(base: string, n: nat) returns (es: seq<Event>)
    requires R.LabelValid(base) && n < R.SUFFIX_LIMIT
    ensures Crowd(Run(Initial([], 0), es), base, n)
    decreases n
  {
    es := [];
    if n > 0 {
      hide Crowd, Step, R.LabelValid, HelloOf;
      var before := CrowdRun(base, n - 1);
      es := before + [Connect, HelloOf(n - 1, base, 0)];
      RunTwo(Initial([], 0), before, Connect, HelloOf(n - 1, base, 0));
      CrowdGrows(Run(Initial([], 0), before), base, n - 1);
    }
  }

  lemma TakenStays(ss: seq<S.SessionData>, s: S.SessionData, l: string)
    requires R.LabelTaken(ss, l)
    ensures R.LabelTaken(ss + [s], l)
  {
    var i :| 0 <= i < |ss| && R.Holds(ss[i], l);
    assert (ss + [s])[i] == ss[i];
  }

  /** The crowd and, if its label is not among theirs, one session that asked for the time-stamped label. */
  ghost predicate FullHouse(st: State, base: string, now: int, n: nat) {
    && Row(st, n)
    && (forall i | 1 <= i < R.SUFFIX_LIMIT :: R.LabelTaken(st.heap, R.Candidate(base, i)))
    && R.LabelTaken(st.heap, R.Fallback(base, now))
  }

  lemma CrowdTakesAll(st: State, base: string, n: nat)
    requires Crowd(st, base, n) && n == R.SUFFIX_LIMIT - 1
    ensures forall i | 1 <= i < R.SUFFIX_LIMIT :: R.LabelTaken(st.heap, R.Candidate(base, i))
  {
    forall i | 1 <= i < R.SUFFIX_LIMIT ensures R.LabelTaken(st.heap, R.Candidate(base, i)) {
      CrowdTakes(st, base, n, i);
    }
  }

  lemma FullHouseRun(base: string, now: int) returns (es: seq<Event>, n: nat)
    requires R.LabelValid(base) && R.LabelValid(R.Fallback(base, now))
    ensures FullHouse(Run(Initial([], 0), es), base, now, n)
  {
    n := R.SUFFIX_LIMIT - 1;
    es := CrowdRun(base, n);
    var st := Run(Initial([], 0), es);
    CrowdTakesAll(st, base, n);
    hide R.LabelValid, R.Candidate, R.Fallback, R.LabelTaken, Step, Run, Row;
    if !R.LabelTaken(st.heap, R.Fallback(base, now)) {
      FallbackJoins(st, base, n, now);
      RunTwo(Initial([], 0), es, Connect, HelloOf(n, R.Fallback(base, now), now));
      es, n := es + [Connect, HelloOf(n, R.Fallback(base, now), now)], n + 1;
    }
  }

  lemma FallbackJoins(st: State, base: string, n: nat, now: int)
    requires Row(st, n) && R.LabelValid(R.Fallback(base, now)) && !R.LabelTaken(st.heap, R.Fallback(base, now))
    requires forall i | 1 <= i < R.SUFFIX_LIMIT :: R.LabelTaken(st.heap, R.Candidate(base, i))
    ensures FullHouse(Joined(st, n, R.Fallback(base, now), now), base, now, n + 1)
  {
    var name := R.Fallback(base, now);
    RowGrows(st, n, name, now);
    assert R.Resolved(st.heap, name, now) == name;
    var s := S.NewData(OfNat(n), name, 1, 0, n, now);
    assert R.Holds((st.heap + [s])[|st.heap|], name);
    hide R.LabelValid, R.Candidate, R.Fallback, R.Resolved, Joined, Creates, OfNat, Row, Rivals;
    forall i | 1 <= i < R.SUFFIX_LIMIT ensures R.LabelTaken(st.heap + [s], R.Candidate(base, i)) {
      TakenStays(st.heap, s, R.Candidate(base, i));
    }
  }

  /** Two different living registered sessions under one label. */
  ghost predicate ShareLabel(t: State, g: nat, h: nat) {
    && g != h && g in t.reg && h in t.reg && g < |t.heap| && h < |t.heap|
    && t.heap[g].status == S.Alive && t.heap[h].status == S.Alive && t.heap[g].name == t.heap[h].name
  }

  lemma RowCollides(st: State, base: string, now: int, n: nat) returns (g: nat)
    requires FullHouse(st, base, now, n) && R.LabelValid(base)
    ensures CreatesCollision(Step(st, Connect), HelloOf(n, base, now)) && ShareLabel(Joined(st, n, base, now), g, n)
  {
    RowGrows(st, n, base, now);
    g :| 0 <= g < |st.heap| && R.Holds(st.heap[g], R.Fallback(base, now));
    RowHolderCollides(st, base, now, n, g);
    AllTakenMeansFallback(st.heap, base, now);
    hide R.LabelTaken, R.Candidate, R.Fallback, R.Resolved, R.LabelValid, OfNat, Creates, Rivals, Joined;
    RowShares(Joined(st, n, base, now), st.heap, n, g);
  }

  lemma RowHolderCollides(st: State, base: string, now: int, n: nat, g: nat)
    requires FullHouse(st, base, now, n) && g < |st.heap| && R.Holds(st.heap[g], R.Fallback(base, now))
    requires Creates(Step(st, Connect), HelloOf(n, base, now)) && Rivals(Step(st, Connect), Newcomer(n, base)) == st.heap
    requires RequestedLabel(Newcomer(n, base)) == base
    ensures CreatesCollision(Step(st, Connect), HelloOf(n, base, now))
  {
    assert st.heap[g].id != OfNat(n) by {
      if OfNat(g) == OfNat(n) { OfNatInjective(g, n); }
    }
    hide Creates, R.LabelTaken, R.Candidate, R.Fallback, OfNat, Row, Rivals, Step, RequestedLabel;
    assert Collides(st.heap, OfNat(n), R.Fallback(base, now));
  }

  lemma RowShares(t: State, heap: seq<S.SessionData>, n: nat, g: nat)
    requires Row(t, n + 1) && |heap| == n && g < n && heap == t.heap[..n] && t.heap[n].name == heap[g].name
    ensures ShareLabel(t, g, n)
  {
    hide OfNat;
    assert t.reg[g] == g && t.reg[n] == n && t.heap[g] == heap[g];
  }

  /**
   The failing family is real: for every valid label and every clock reading whose time-stamped
   label is valid too, a run from an empty daemon reaches a state in which one more hello for
   that label makes two living registered sessions share it.
   */
  lemma CollisionIsReachable(base: string, now: int) returns (es: seq<Event>, e: Event, g: nat, h: nat)
    requires R.LabelValid(base) && R.LabelValid(R.Fallback(base, now))
    ensures var st := Run(Initial([], 0), es); CreatesCollision(st, e) && ShareLabel(Step(st, e), g, h)
  {
    var before, n := FullHouseRun(base, now);
    g := RowCollides(Run(Initial([], 0), before), base, now, n);
    hide Step, R.LabelValid, R.Fallback, CreatesCollision, ShareLabel, HelloOf;
    h := n;
    es := before + [Connect];
    e := HelloOf(n, base, now);
    assert es[..|es| - 1] == before;
  }
}
