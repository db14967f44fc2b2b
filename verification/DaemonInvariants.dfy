/** What every event of the daemon keeps: sockets and sessions, the registry, deaths, and what clients are told. */
module DaemonInvariants {
  import opened Wrappers
  import opened Constants
  import Base64
  import opened Decimal
  import opened Daemon
  import N = Notifications
  import P = Persistence
  import R = Registry
  import S = Session

  // ---------- sockets and sessions ----------

  /** Dead, without a socket, and with a time of death are the same thing; the socket of session `h` is an open connection bound to it. */
  ghost predicate SessionFacts(s: S.SessionData, h: nat, conns: seq<Conn>) {
    && (s.status == S.Dead <==> s.sock == None)
    && (s.status == S.Dead <==> s.diedAt.Some?)
    && (s.sock.Some? ==>
          && s.sock.value < |conns| && conns[s.sock.value].session == Some(h) && !conns[s.sock.value].closed)
  }

  /** A cb connection is bound to a session; as long as nobody destroyed it, it is that session's socket. */
  ghost predicate ConnFacts(conn: Conn, c: nat, heap: seq<S.SessionData>) {
    && (conn.role == Cb <==> conn.session.Some?)
    && (conn.closed ==> conn.destroyed)
    && (conn.heartbeat <==> conn.session.Some? && !conn.closed)
    && (conn.session.Some? ==>
          && conn.session.value < |heap|
          && (!conn.destroyed ==> heap[conn.session.value].sock == Some(c)))
  }

  ghost predicate SessionsOk(heap: seq<S.SessionData>, conns: seq<Conn>) {
    forall h | 0 <= h < |heap| :: SessionFacts(heap[h], h, conns)
  }

  ghost predicate ConnsOk(heap: seq<S.SessionData>, conns: seq<Conn>) {
    forall c | 0 <= c < |conns| :: ConnFacts(conns[c], c, heap)
  }

  ghost predicate Binding(heap: seq<S.SessionData>, conns: seq<Conn>) {
    SessionsOk(heap, conns) && ConnsOk(heap, conns)
  }

  // ---------- the registry ----------

  ghost predicate RegOk(heap: seq<S.SessionData>, reg: seq<nat>) {
    && (forall i | 0 <= i < |reg| :: reg[i] < |heap|)
    && (forall i, j | 0 <= i < j < |reg| :: heap[reg[i]].id != heap[reg[j]].id)
  }

  // ---------- deaths ----------

  function DeathCount(deaths: seq<Death>, h: nat): nat {
    if deaths == [] then 0
    else DeathCount(deaths[..|deaths| - 1], h) + (if deaths[|deaths| - 1].handle == h then 1 else 0)
  }

  /** The listeners ran once for each dead session, and never for a living one. */
  ghost predicate DeathsOk(heap: seq<S.SessionData>, deaths: seq<Death>) {
    && (forall h: nat :: DeathCount(deaths, h) == if h < |heap| && heap[h].status == S.Dead then 1 else 0)
    && (forall i | 0 <= i < |deaths| :: deaths[i].handle < |heap| && heap[deaths[i].handle].id == deaths[i].id)
  }

  // ---------- clients ----------

  /** mcpClientIdBySock lists exactly the open mcp connections, each once, under their client ids. */
  ghost predicate PeersOk(conns: seq<Conn>, peers: seq<Peer>) {
    && (forall i | 0 <= i < |peers| ::
          && peers[i].sock < |conns| && conns[peers[i].sock].role == Mcp && !conns[peers[i].sock].closed
          && conns[peers[i].sock].clientId == peers[i].clientId)
    && (forall i, j | 0 <= i < j < |peers| :: peers[i].sock != peers[j].sock)
    && (forall c | 0 <= c < |conns| && conns[c].role == Mcp && !conns[c].closed :: Listed(peers, c))
  }

  ghost predicate Listed(peers: seq<Peer>, c: nat) {
    exists i :: 0 <= i < |peers| && peers[i].sock == c
  }

  // ---------- what clients are told ----------

  datatype Told = Told(client: string, sessionId: string, name: string, kind: N.Kind)

  /** The death events among all events ever enqueued. */
  function DeathNews(log: seq<N.Logged>): seq<Told> {
    if log == [] then []
    else
      var l := log[|log| - 1];
      DeathNews(log[..|log| - 1])
      + if l.note.kind.SessionDead? || l.note.kind.SessionExited? then [Told(l.client, l.note.sessionId, l.note.name, l.note.kind)] else []
  }

  /** session_exited with the integer of the bye frame, session_dead for every other cause. */
  function KindFor(cause: Cause): N.Kind {
    if cause.ByeFrame? then N.SessionExited(ReasonText(cause), cause.exitCode) else N.SessionDead(ReasonText(cause))
  }

  function Announcement(d: Death): seq<Told> {
    seq(|d.clients|, i requires 0 <= i < |d.clients| => Told(d.clients[i], d.id, d.name, KindFor(d.cause)))
  }

  function Announced(deaths: seq<Death>): seq<Told> {
    if deaths == [] then []
    else Announced(deaths[..|deaths| - 1]) + Announcement(deaths[|deaths| - 1])
  }

  /** Each death was announced to each client connected at that moment, once, and nothing else was announced. */
  ghost predicate NewsOk(log: seq<N.Logged>, deaths: seq<Death>) {
    DeathNews(log) == Announced(deaths)
  }

  ghost predicate Inv(st: State) {
    && Binding(st.heap, st.conns)
    && RegOk(st.heap, st.reg)
    && DeathsOk(st.heap, st.deaths)
    && PeersOk(st.conns, st.peers)
    && N.Inv(st.notif)
    && NewsOk(st.notif.log, st.deaths)
  }

  // ---------- updates of one session that touch neither life nor socket ----------

  ghost predicate SameCore(a: S.SessionData, b: S.SessionData) {
    a.id == b.id && a.status == b.status && a.sock == b.sock && a.diedAt == b.diedAt
  }

  ghost predicate SameCores(heap: seq<S.SessionData>, heap': seq<S.SessionData>) {
    |heap'| == |heap| && forall h | 0 <= h < |heap| :: SameCore(heap[h], heap'[h])
  }

  lemma CoresKeepBinding(heap: seq<S.SessionData>, heap': seq<S.SessionData>, conns: seq<Conn>)
    requires Binding(heap, conns) && SameCores(heap, heap')
    ensures Binding(heap', conns)
  {
    forall h | 0 <= h < |heap'| ensures SessionFacts(heap'[h], h, conns) {
      assert SameCore(heap[h], heap'[h]) && SessionFacts(heap[h], h, conns);
    }
    forall c | 0 <= c < |conns| ensures ConnFacts(conns[c], c, heap') {
      assert ConnFacts(conns[c], c, heap);
    }
  }

  ghost predicate SameLives(heap: seq<S.SessionData>, heap': seq<S.SessionData>) {
    |heap'| == |heap| && forall h | 0 <= h < |heap| :: heap'[h].id == heap[h].id && heap'[h].status == heap[h].status
  }

  lemma CoresAreLives(heap: seq<S.SessionData>, heap': seq<S.SessionData>)
    requires SameCores(heap, heap')
    ensures SameLives(heap, heap')
  {
    forall h | 0 <= h < |heap| ensures heap'[h].id == heap[h].id && heap'[h].status == heap[h].status {
      assert SameCore(heap[h], heap'[h]);
    }
  }

  lemma LivesKeepReg(heap: seq<S.SessionData>, heap': seq<S.SessionData>, reg: seq<nat>)
    requires RegOk(heap, reg) && SameLives(heap, heap')
    ensures RegOk(heap', reg)
  {
  }

  lemma LivesKeepDeaths(heap: seq<S.SessionData>, heap': seq<S.SessionData>, deaths: seq<Death>)
    requires DeathsOk(heap, deaths) && SameLives(heap, heap')
    ensures DeathsOk(heap', deaths)
  {
    hide DeathCount;
  }

  lemma CoresKeepInv(st: State, heap': seq<S.SessionData>)
    requires Inv(st) && SameCores(st.heap, heap')
    ensures Inv(st.(heap := heap'))
  {
    CoresKeepBinding(st.heap, heap', st.conns);
    CoresAreLives(st.heap, heap');
    LivesKeepReg(st.heap, heap', st.reg);
    LivesKeepDeaths(st.heap, heap', st.deaths);
    hide Binding, RegOk, DeathsOk, PeersOk, NewsOk;
  }

  lemma WithSessionKeepsInv(st: State, h: nat, s: S.SessionData)
    requires Inv(st) && SameCore(At(st.heap, h), s)
    ensures Inv(WithSession(st, h, s))
  {
    if h < |st.heap| {
      assert SameCores(st.heap, st.heap[h := s]);
      CoresKeepInv(st, st.heap[h := s]);
    }
  }

  // ---------- updates of one connection ----------

  lemma DestroyKeepsBinding(heap: seq<S.SessionData>, conns: seq<Conn>, sock: Option<nat>)
    requires Binding(heap, conns)
    ensures Binding(heap, Destroyed(conns, sock))
  {
    var conns' := Destroyed(conns, sock);
    forall h | 0 <= h < |heap| ensures SessionFacts(heap[h], h, conns') {
      assert SessionFacts(heap[h], h, conns);
    }
    forall c | 0 <= c < |conns| ensures ConnFacts(conns'[c], c, heap) {
      assert ConnFacts(conns[c], c, heap);
    }
  }

  lemma DestroyKeepsPeers(conns: seq<Conn>, sock: Option<nat>, peers: seq<Peer>)
    requires PeersOk(conns, peers)
    ensures PeersOk(Destroyed(conns, sock), peers)
  {
    hide Listed;
  }

  lemma DestroyKeepsInv(st: State, c: nat)
    requires Inv(st)
    ensures Inv(DestroyConn(st, c))
  {
    DestroyKeepsBinding(st.heap, st.conns, Some(c));
    DestroyKeepsPeers(st.conns, Some(c), st.peers);
    hide Binding, RegOk, DeathsOk, PeersOk, NewsOk;
  }

  // ---------- death ----------

  lemma DeathKeepsBinding(heap: seq<S.SessionData>, conns: seq<Conn>, h: nat, now: int)
    requires Binding(heap, conns) && h < |heap|
    ensures Binding(heap[h := S.Died(heap[h], now)], Destroyed(conns, heap[h].sock))
  {
    var heap', conns' := heap[h := S.Died(heap[h], now)], Destroyed(conns, heap[h].sock);
    assert SessionFacts(heap[h], h, conns);
    forall g | 0 <= g < |heap'| ensures SessionFacts(heap'[g], g, conns') {
      assert SessionFacts(heap[g], g, conns);
    }
    forall c | 0 <= c < |conns| ensures ConnFacts(conns'[c], c, heap') {
      assert ConnFacts(conns[c], c, heap);
    }
  }

  lemma DeathKeepsReg(heap: seq<S.SessionData>, reg: seq<nat>, h: nat, now: int)
    requires RegOk(heap, reg) && h < |heap|
    ensures RegOk(heap[h := S.Died(heap[h], now)], reg)
  {
  }

  lemma DeathCounts(heap: seq<S.SessionData>, deaths: seq<Death>, d: Death, now: int)
    requires DeathsOk(heap, deaths) && d.handle < |heap| && heap[d.handle].status == S.Alive && d.id == heap[d.handle].id
    ensures DeathsOk(heap[d.handle := S.Died(heap[d.handle], now)], deaths + [d])
  {
    var heap' := heap[d.handle := S.Died(heap[d.handle], now)];
    assert (deaths + [d])[..|deaths|] == deaths;
    forall h: nat ensures DeathCount(deaths + [d], h) == if h < |heap'| && heap'[h].status == S.Dead then 1 else 0 {
      assert DeathCount(deaths, h) == if h < |heap| && heap[h].status == S.Dead then 1 else 0;
    }
  }

  lemma {:induction false} NewsAppend(a: seq<N.Logged>, b: seq<N.Logged>)
    ensures DeathNews(a + b) == DeathNews(a) + DeathNews(b)
  {
    if b == [] {
      assert a + b == a;
    } else {
      NewsAppend(a, b[..|b| - 1]);
      assert (a + b)[..|a + b| - 1] == a + b[..|b| - 1];
    }
  }

  lemma KindIsDeath(cause: Cause)
    ensures KindFor(cause).SessionDead? || KindFor(cause).SessionExited?
  {
  }

  lemma NewsSnoc(l: seq<N.Logged>, x: N.Logged)
    requires x.note.kind.SessionDead? || x.note.kind.SessionExited?
    ensures DeathNews(l + [x]) == DeathNews(l) + [Told(x.client, x.note.sessionId, x.note.name, x.note.kind)]
  {
    assert (l + [x])[..|l|] == l;
  }

  lemma EventLogSnoc(clients: seq<string>, from: nat, id: string, name: string, kind: N.Kind, now: int)
    requires clients != []
    ensures var n := |clients| - 1;
            N.EventLog(clients, from, id, name, kind, now)
            == N.EventLog(clients[..n], from, id, name, kind, now) + [N.Logged(clients[n], N.Note(from + n, now, id, name, kind), None)]
  {
  }

  lemma AnnouncementSnoc(d: Death)
    requires d.clients != []
    ensures var n := |d.clients| - 1;
            Announcement(d) == Announcement(d.(clients := d.clients[..n])) + [Told(d.clients[n], d.id, d.name, KindFor(d.cause))]
  {
    hide KindFor;
  }

  lemma {:induction false} NewsOfDeath(d: Death, from: nat, now: int)
    ensures DeathNews(N.EventLog(d.clients, from, d.id, d.name, KindFor(d.cause), now)) == Announcement(d)
    decreases |d.clients|
  {
    if d.clients != [] {
      hide KindFor, N.EventLog, Announcement, DeathNews;
      var n := |d.clients| - 1;
      var e := d.(clients := d.clients[..n]);
      NewsOfDeath(e, from, now);
      EventLogSnoc(d.clients, from, d.id, d.name, KindFor(d.cause), now);
      KindIsDeath(d.cause);
      NewsSnoc(N.EventLog(e.clients, from, d.id, d.name, KindFor(d.cause), now),
               N.Logged(d.clients[n], N.Note(from + n, now, d.id, d.name, KindFor(d.cause)), None));
      AnnouncementSnoc(d);
    }
  }

  lemma {:induction false} NoNews(l: seq<N.Logged>)
    requires forall i | 0 <= i < |l| :: !l[i].note.kind.SessionDead? && !l[i].note.kind.SessionExited?
    ensures DeathNews(l) == []
  {
    if l != [] {
      NoNews(l[..|l| - 1]);
    }
  }

  lemma KindSurvivesText(cause: Cause)
    ensures N.DeathKind(ReasonText(cause), ExitCodeIn(ReasonText(cause))) == KindFor(cause)
  {
    ExitCodeSurvivesText(cause);
  }

  lemma DeathIsNews(notif: N.State, deaths: seq<Death>, d: Death, now: int)
    requires NewsOk(notif.log, deaths)
    ensures NewsOk(N.FanoutDead(notif, d.clients, d.id, d.name, KindFor(d.cause), now).log, deaths + [d])
  {
    hide N.FanoutDead, KindFor, Announcement;
    N.FanoutLog(notif, d.clients, d.id, d.name, KindFor(d.cause), now);
    var l := N.EventLog(d.clients, notif.nextId, d.id, d.name, KindFor(d.cause), now);
    NewsAppend(notif.log, l);
    NewsOfDeath(d, notif.nextId, now);
    assert (deaths + [d])[..|deaths|] == deaths;
  }

  lemma MarkDeadKeepsInv(st: State, h: nat, cause: Cause, now: int)
    requires Inv(st)
    ensures Inv(MarkDead(st, h, cause, now))
  {
    if h < |st.heap| && st.heap[h].status == S.Alive {
      var s := st.heap[h];
      var d := Death(h, s.id, s.name, cause, Clients(st.peers));
      DeathKeepsBinding(st.heap, st.conns, h, now);
      DeathKeepsReg(st.heap, st.reg, h, now);
      DeathCounts(st.heap, st.deaths, d, now);
      DestroyKeepsPeers(st.conns, s.sock, st.peers);
      KindSurvivesText(cause);
      N.FanoutDeadKeepsInv(st.notif, d.clients, s.id, s.name, KindFor(cause), now);
      DeathIsNews(st.notif, st.deaths, d, now);
      hide Binding, RegOk, DeathsOk, PeersOk, NewsOk, KindFor, N.Inv, N.FanoutDead, P.MarkEnded, Clients, ReasonText, ExitCodeIn, Destroyed, S.Died;
    }
  }

  // ---------- a connection finds its role ----------

  /** A connection without a role that becomes a cb connection of session `h`. */
  lemma JoinKeepsPeers(conns: seq<Conn>, peers: seq<Peer>, c: nat, h: nat)
    requires PeersOk(conns, peers) && c < |conns| && conns[c].role == Unknown
    ensures PeersOk(conns[c := conns[c].(role := Cb, session := Some(h), heartbeat := true)], peers)
  {
    hide Listed;
  }

  lemma ResumeKeepsBinding(st: State, c: nat, h: nat, now: int)
    requires Binding(st.heap, st.conns) && c < |st.conns| && h < |st.heap|
    requires st.conns[c].role == Unknown && !st.conns[c].closed && st.heap[h].status == S.Alive
    ensures Binding(Resume(st, c, h, now).heap, Resume(st, c, h, now).conns)
  {
    var t := Resume(st, c, h, now);
    assert SessionFacts(st.heap[h], h, st.conns) && ConnFacts(st.conns[c], c, st.heap);
    forall g | 0 <= g < |t.heap| ensures SessionFacts(t.heap[g], g, t.conns) {
      assert SessionFacts(st.heap[g], g, st.conns);
    }
    forall d | 0 <= d < |t.conns| ensures ConnFacts(t.conns[d], d, t.heap) {
      assert ConnFacts(st.conns[d], d, st.heap);
    }
  }

  lemma ResumeKeepsInv(st: State, c: nat, h: nat, now: int)
    requires Inv(st) && c < |st.conns| && h < |st.heap|
    requires st.conns[c].role == Unknown && !st.conns[c].closed && st.heap[h].status == S.Alive
    ensures Inv(Resume(st, c, h, now))
  {
    var t, s := Resume(st, c, h, now), st.heap[h];
    var conns := if s.sock == Some(c) then st.conns else Destroyed(st.conns, s.sock);
    ResumeKeepsBinding(st, c, h, now);
    LivesKeepReg(st.heap, t.heap, st.reg);
    LivesKeepDeaths(st.heap, t.heap, st.deaths);
    DestroyKeepsPeers(st.conns, s.sock, st.peers);
    JoinKeepsPeers(conns, st.peers, c, h);
    hide Binding, RegOk, DeathsOk, PeersOk, NewsOk;
  }

  lemma RenamingKeepsCores(heap: seq<S.SessionData>, reg: seq<nat>, name: string, now: int)
    ensures SameCores(heap, RenamedAll(heap, reg, name, now))
  {
  }

  lemma AttachKeepsBinding(heap: seq<S.SessionData>, conns: seq<Conn>, c: nat, s: S.SessionData)
    requires Binding(heap, conns) && c < |conns| && conns[c].role == Unknown && !conns[c].closed
    requires s.sock == Some(c) && s.status == S.Alive && s.diedAt == None
    ensures Binding(heap + [s], conns[c := conns[c].(role := Cb, session := Some(|heap|), heartbeat := true)])
  {
    var heap', conns' := heap + [s], conns[c := conns[c].(role := Cb, session := Some(|heap|), heartbeat := true)];
    assert ConnFacts(conns[c], c, heap);
    forall h | 0 <= h < |heap'| ensures SessionFacts(heap'[h], h, conns') {
      assert h < |heap| ==> SessionFacts(heap[h], h, conns);
    }
    forall d | 0 <= d < |conns'| ensures ConnFacts(conns'[d], d, heap') {
      assert ConnFacts(conns[d], d, heap);
    }
  }

  lemma PutKeepsReg(heap: seq<S.SessionData>, reg: seq<nat>, s: S.SessionData)
    requires RegOk(heap, reg)
    ensures RegOk(heap + [s], Put(heap, reg, s.id, |heap|))
  {
    var ss := Registered(heap, reg);
    var r, heap' := Put(heap, reg, s.id, |heap|), heap + [s];
    var k := R.IndexOfId(ss, s.id);
    assert forall i | 0 <= i < |reg| :: ss[i].id == heap[reg[i]].id;
    if k.Some? {
      assert forall i | 0 <= i < |reg| && i != k.value :: heap[reg[i]].id != s.id;
    }
    hide R.IndexOfId;
  }

  lemma BirthKeepsDeaths(heap: seq<S.SessionData>, deaths: seq<Death>, s: S.SessionData)
    requires DeathsOk(heap, deaths) && s.status == S.Alive
    ensures DeathsOk(heap + [s], deaths)
  {
    hide DeathCount;
  }

  lemma AddedIsNoNews(notif: N.State, deaths: seq<Death>, clients: seq<string>, id: string, name: string, now: int)
    requires NewsOk(notif.log, deaths)
    ensures NewsOk(N.FanoutAdded(notif, clients, id, name, now).log, deaths)
  {
    hide N.FanoutAdded;
    N.FanoutAddedLog(notif, clients, id, name, now);
    var l := N.EventLog(clients, notif.nextId, id, name, N.SessionAdded, now);
    NewsAppend(notif.log, l);
    NoNews(l);
  }

  lemma PutIgnoresRenaming(heap: seq<S.SessionData>, heap': seq<S.SessionData>, reg: seq<nat>, id: string, h: nat)
    requires SameCores(heap, heap')
    ensures Put(heap, reg, id, h) == Put(heap', reg, id, h)
  {
    forall i | 0 <= i < |reg| ensures At(heap, reg[i]).id == At(heap', reg[i]).id {
      assert reg[i] < |heap| ==> SameCore(heap[reg[i]], heap'[reg[i]]);
    }
    SameIdsSameIndex(Registered(heap, reg), Registered(heap', reg), id);
  }

  lemma {:induction false} SameIdsSameIndex(a: seq<S.SessionData>, b: seq<S.SessionData>, id: string)
    requires |a| == |b| && forall i | 0 <= i < |a| :: a[i].id == b[i].id
    ensures R.IndexOfId(a, id) == R.IndexOfId(b, id)
  {
    if a != [] {
      SameIdsSameIndex(a[1..], b[1..], id);
    }
  }

  lemma AttachKeepsInv(st: State, c: nat, m: HelloMsg, now: int)
    requires Inv(st) && c < |st.conns| && st.conns[c].role == Unknown && !st.conns[c].closed
    ensures Inv(Attach(st, c, m, now))
  {
    var name := R.Resolved(Registered(st.heap, st.reg), RequestedLabel(m), now);
    var heap := RenamedAll(st.heap, st.reg, name, now);
    var s := S.NewData(m.id, name, m.pid, m.startedAt, c, now);
    RenamingKeepsCores(st.heap, st.reg, name, now);
    CoresKeepInv(st, heap);
    PutIgnoresRenaming(st.heap, heap, st.reg, m.id, |st.heap|);
    AttachKeepsBinding(heap, st.conns, c, s);
    PutKeepsReg(heap, st.reg, s);
    BirthKeepsDeaths(heap, st.deaths, s);
    JoinKeepsPeers(st.conns, st.peers, c, |st.heap|);
    N.FanoutAddedKeepsInv(st.notif, Clients(st.peers), m.id, name, now);
    AddedIsNoNews(st.notif, st.deaths, Clients(st.peers), m.id, name, now);
    hide Binding, RegOk, DeathsOk, PeersOk, NewsOk, N.Inv, N.FanoutAdded, RenamedAll, Put, R.Resolved, P.AddOrUpdate, Clients, Registered, SameCores;
  }

  // ---------- dropping registry entries ----------

  /** `sub` is what stands at the increasing positions `p` of `reg`. */
  ghost predicate Positions(reg: seq<nat>, sub: seq<nat>, p: seq<nat>) {
    && |p| == |sub|
    && (forall i | 0 <= i < |p| :: p[i] < |reg| && sub[i] == reg[p[i]])
    && (forall i, j | 0 <= i < j < |p| :: p[i] < p[j])
  }

  lemma PositionsSnoc(reg: seq<nat>, sub: seq<nat>, p: seq<nat>, x: nat)
    requires Positions(reg, sub, p)
    ensures Positions(reg + [x], sub, p) && Positions(reg + [x], sub + [x], p + [|reg|])
  {
  }

  lemma {:induction false} WithoutPositions(reg: seq<nat>, h: nat) returns (p: seq<nat>)
    ensures Positions(reg, Without(reg, h), p)
  {
    p := [];
    if reg != [] {
      hide Positions;
      var n := |reg| - 1;
      p := WithoutPositions(reg[..n], h);
      PositionsSnoc(reg[..n], Without(reg[..n], h), p, reg[n]);
      assert reg[..n] + [reg[n]] == reg;
      assert Without(reg[..n], h) + [] == Without(reg[..n], h);
      if reg[n] != h {
        p := p + [n];
      }
    }
  }

  lemma {:induction false} RetainedPositions(heap: seq<S.SessionData>, reg: seq<nat>, now: int) returns (p: seq<nat>)
    ensures Positions(reg, Retained(heap, reg, now), p)
  {
    p := [];
    if reg != [] {
      hide Positions, R.Expired;
      var n := |reg| - 1;
      p := RetainedPositions(heap, reg[..n], now);
      PositionsSnoc(reg[..n], Retained(heap, reg[..n], now), p, reg[n]);
      assert reg[..n] + [reg[n]] == reg;
      assert Retained(heap, reg[..n], now) + [] == Retained(heap, reg[..n], now);
      if !R.Expired(At(heap, reg[n]), now) {
        p := p + [n];
      }
    }
  }

  lemma SublistKeepsReg(heap: seq<S.SessionData>, reg: seq<nat>, sub: seq<nat>, p: seq<nat>)
    requires RegOk(heap, reg) && Positions(reg, sub, p)
    ensures RegOk(heap, sub)
  {
  }

  lemma {:induction false} WithoutMembers(reg: seq<nat>, h: nat, x: nat)
    ensures x in Without(reg, h) <==> x in reg && x != h
  {
    if reg != [] {
      WithoutMembers(reg[..|reg| - 1], h, x);
      assert reg == reg[..|reg| - 1] + [reg[|reg| - 1]];
    }
  }

  lemma WithoutFacts(heap: seq<S.SessionData>, reg: seq<nat>, h: nat)
    requires RegOk(heap, reg)
    ensures RegOk(heap, Without(reg, h))
    ensures forall x :: x in Without(reg, h) <==> x in reg && x != h
  {
    hide RegOk, Without, Positions;
    var p := WithoutPositions(reg, h);
    SublistKeepsReg(heap, reg, Without(reg, h), p);
    forall x ensures x in Without(reg, h) <==> x in reg && x != h {
      WithoutMembers(reg, h, x);
    }
  }

  lemma {:induction false} RetainedMembers(heap: seq<S.SessionData>, reg: seq<nat>, now: int, x: nat)
    ensures x in Retained(heap, reg, now) <==> x in reg && !R.Expired(At(heap, x), now)
  {
    if reg != [] {
      hide R.Expired;
      RetainedMembers(heap, reg[..|reg| - 1], now, x);
      assert reg == reg[..|reg| - 1] + [reg[|reg| - 1]];
    }
  }

  /** Dead for more than five minutes. */
  predicate LongDead(s: S.SessionData, now: int) {
    s.status == S.Dead && s.diedAt.Some? && s.diedAt.value < now - 300_000
  }

  lemma ExpiredIsLongDead(s: S.SessionData, now: int)
    ensures R.Expired(s, now) <==> LongDead(s, now)
  {
  }

  /** A sweep drops exactly the sessions that have been dead for longer than the retain time. */
  lemma RetainedFacts(heap: seq<S.SessionData>, reg: seq<nat>, now: int)
    requires RegOk(heap, reg)
    ensures RegOk(heap, Retained(heap, reg, now))
    ensures forall x: nat :: x in Retained(heap, reg, now) <==> x in reg && x < |heap| && !LongDead(heap[x], now)
  {
    assert forall x: nat | x in reg :: x < |heap|;
    hide RegOk, Retained, Positions, R.Expired, LongDead;
    var p := RetainedPositions(heap, reg, now);
    SublistKeepsReg(heap, reg, Retained(heap, reg, now), p);
    forall x: nat ensures x in Retained(heap, reg, now) <==> x in reg && x < |heap| && !LongDead(heap[x], now) {
      RetainedMembers(heap, reg, now, x);
      ExpiredIsLongDead(At(heap, x), now);
    }
  }

  lemma PurgedKeepsInv(st: State, m: HelloMsg)
    requires Inv(st)
    ensures Inv(Purged(st, m))
  {
    var prior := Prior(st, m);
    if prior.Some? {
      WithoutFacts(st.heap, st.reg, prior.value);
    }
    hide Binding, RegOk, DeathsOk, PeersOk, NewsOk, Prior, Without, N.Inv;
  }

  lemma AcceptCbKeepsInv(st: State, c: nat, m: HelloMsg, now: int)
    requires Inv(st) && c < |st.conns| && st.conns[c].role == Unknown && !st.conns[c].closed
    ensures Inv(AcceptCb(st, c, m, now))
  {
    hide Inv, Prior, Attach, Resume, Accepted, Without;
    if !Accepted(m) {
      DestroyKeepsInv(st, c);
    } else if Resumes(st, m) {
      ResumeKeepsInv(st, c, Prior(st, m).value, now);
    } else {
      PurgedKeepsInv(st, m);
      AttachKeepsInv(Purged(st, m), c, m, now);
    }
  }

  lemma McpJoinsPeers(conns: seq<Conn>, peers: seq<Peer>, c: nat, id: string)
    requires PeersOk(conns, peers) && c < |conns| && conns[c].role == Unknown && !conns[c].closed
    ensures PeersOk(conns[c := conns[c].(role := Mcp, clientId := id)], peers + [Peer(c, id)])
  {
    var conns', peers' := conns[c := conns[c].(role := Mcp, clientId := id)], peers + [Peer(c, id)];
    forall d | 0 <= d < |conns'| && conns'[d].role == Mcp && !conns'[d].closed ensures Listed(peers', d) {
      if d == c {
        assert peers'[|peers|].sock == d;
      } else {
        assert Listed(peers, d);
        var i :| 0 <= i < |peers| && peers[i].sock == d;
        assert peers'[i].sock == d;
      }
    }
  }

  lemma McpKeepsBinding(heap: seq<S.SessionData>, conns: seq<Conn>, c: nat, id: string)
    requires Binding(heap, conns) && c < |conns| && conns[c].role == Unknown
    ensures Binding(heap, conns[c := conns[c].(role := Mcp, clientId := id)])
  {
    var conns' := conns[c := conns[c].(role := Mcp, clientId := id)];
    assert ConnFacts(conns[c], c, heap);
    forall h | 0 <= h < |heap| ensures SessionFacts(heap[h], h, conns') {
      assert SessionFacts(heap[h], h, conns);
    }
    forall d | 0 <= d < |conns'| ensures ConnFacts(conns'[d], d, heap) {
      assert ConnFacts(conns[d], d, heap);
    }
  }

  lemma AcceptMcpKeepsInv(st: State, c: nat, secretOk: bool, clientId: string)
    requires Inv(st) && c < |st.conns| && st.conns[c].role == Unknown && !st.conns[c].closed
    ensures Inv(AcceptMcp(st, c, secretOk, clientId))
  {
    if secretOk {
      var id := if clientId == "" then "mcp-" + OfNat(c) else clientId;
      McpJoinsPeers(st.conns, st.peers, c, id);
      McpKeepsBinding(st.heap, st.conns, c, id);
      hide Binding, RegOk, DeathsOk, PeersOk, NewsOk;
    } else {
      DestroyKeepsInv(st, c);
    }
  }

  // ---------- frames, ticks and closing ----------

  lemma OtherNotifKeepsInv(st: State, notif: N.State)
    requires Inv(st) && N.Inv(notif) && DeathNews(notif.log) == DeathNews(st.notif.log)
    ensures Inv(st.(notif := notif))
  {
    hide Binding, RegOk, DeathsOk, PeersOk, DeathNews, Announced;
  }

  lemma CbFrameKeepsInv(st: State, h: nat, f: Frame, now: int)
    requires Inv(st)
    ensures Inv(CbFrame(st, h, f, now))
  {
    hide Inv;
    match f {
      case Stdout(data) =>
        var decoded := Base64.DecodeStrict(data);
        if decoded.Some? {
          WithSessionKeepsInv(st, h, S.WithStdout(At(st.heap, h), decoded.value, now));
        }
      case UserInput(at) => WithSessionKeepsInv(st, h, S.WithUserInput(At(st.heap, h), at, now));
      case Bye(n) => MarkDeadKeepsInv(st, h, ByeFrame(n), now);
      case Pong => WithSessionKeepsInv(st, h, At(st.heap, h).(missedPongs := 0, lastActivityAt := now));
      case _ =>
    }
  }

  lemma DispatchKeepsInv(st: State, c: nat, f: Frame, now: int)
    requires Inv(st) && Reaches(st, c)
    ensures Inv(Dispatch(st, c, f, now))
  {
    hide Inv, AcceptCb, AcceptMcp, CbFrame, N.Inv, N.Drained;
    var conn := st.conns[c];
    match conn.role {
      case Unknown =>
        match f {
          case Hello(m) => AcceptCbKeepsInv(st, c, m, now);
          case McpHello(ok, id) => AcceptMcpKeepsInv(st, c, ok, id);
          case _ => DestroyKeepsInv(st, c);
        }
      case Cb =>
        if conn.session.Some? {
          CbFrameKeepsInv(st, conn.session.value, f, now);
        }
      case Mcp =>
        if f.DrainNotifications? {
          DrainKeepsInv(st, conn.clientId);
        }
    }
  }

  lemma DrainKeepsInv(st: State, client: string)
    requires Inv(st)
    ensures Inv(st.(notif := N.Drained(st.notif, client)))
  {
    N.DrainedKeepsInv(st.notif, client);
    OtherNotifKeepsInv(st, N.Drained(st.notif, client));
  }

  lemma TickKeepsInv(st: State, c: nat, now: int)
    requires Inv(st) && c < |st.conns|
    ensures Inv(HeartbeatTick(st, c, now))
  {
    hide Inv, MarkDead, DestroyConn, WithSession;
    var conn := st.conns[c];
    if conn.heartbeat && !conn.destroyed && conn.session.Some? {
      var h := conn.session.value;
      var s := At(st.heap, h);
      var t := WithSession(st, h, s.(missedPongs := s.missedPongs + 1));
      WithSessionKeepsInv(st, h, s.(missedPongs := s.missedPongs + 1));
      if s.missedPongs + 1 > HEARTBEAT_MISS_LIMIT {
        MarkDeadKeepsInv(t, h, HeartbeatLost, now);
        DestroyKeepsInv(MarkDead(t, h, HeartbeatLost, now), c);
      }
    }
  }

  function Shut(conn: Conn): Conn {
    conn.(heartbeat := false, destroyed := true, closed := true)
  }

  lemma ShutKeepsBinding(heap: seq<S.SessionData>, conns: seq<Conn>, c: nat)
    requires Binding(heap, conns) && c < |conns|
    requires conns[c].session.Some? && conns[c].session.value < |heap| ==> heap[conns[c].session.value].sock != Some(c)
    ensures Binding(heap, conns[c := Shut(conns[c])])
  {
    var conns' := conns[c := Shut(conns[c])];
    assert ConnFacts(conns[c], c, heap);
    forall h | 0 <= h < |heap| ensures SessionFacts(heap[h], h, conns') {
      assert SessionFacts(heap[h], h, conns);
    }
    forall d | 0 <= d < |conns'| ensures ConnFacts(conns'[d], d, heap) {
      assert ConnFacts(conns[d], d, heap);
    }
  }

  lemma ShutKeepsPeers(conns: seq<Conn>, peers: seq<Peer>, c: nat)
    requires PeersOk(conns, peers) && c < |conns| && conns[c].role != Mcp
    ensures PeersOk(conns[c := Shut(conns[c])], peers)
  {
    hide Listed;
  }

  lemma ShutKeepsInv(st: State, c: nat)
    requires Inv(st) && c < |st.conns| && st.conns[c].role != Mcp
    requires st.conns[c].session.Some? && st.conns[c].session.value < |st.heap| ==> st.heap[st.conns[c].session.value].sock != Some(c)
    ensures Inv(st.(conns := st.conns[c := Shut(st.conns[c])]))
  {
    ShutKeepsBinding(st.heap, st.conns, c);
    ShutKeepsPeers(st.conns, st.peers, c);
    hide Binding, RegOk, DeathsOk, PeersOk, NewsOk, N.Inv;
  }

  function ShutDown(st: State, c: nat): State
    requires c < |st.conns|
  {
    st.(conns := st.conns[c := Shut(st.conns[c])])
  }

  /** Closing and then killing the session is killing it and then closing. */
  lemma ShutCommutes(st: State, c: nat, h: nat, cause: Cause, now: int)
    requires c < |st.conns|
    ensures |MarkDead(st, h, cause, now).conns| == |st.conns|
    ensures MarkDead(st.(conns := st.conns[c := Shut(st.conns[c])]), h, cause, now)
         == ShutDown(MarkDead(st, h, cause, now), c)
  {
    hide P.MarkEnded, N.FanoutDead, ReasonText, ExitCodeIn, Clients, S.Died, N.DeathKind;
    if h < |st.heap| && st.heap[h].status == S.Alive {
      var sock := st.heap[h].sock;
      var conns := Destroyed(st.conns, sock);
      assert Destroyed(st.conns[c := Shut(st.conns[c])], sock) == conns[c := Shut(conns[c])];
    }
  }

  lemma {:induction false} WithoutPeerFacts(peers: seq<Peer>, c: nat)
    requires forall i, j | 0 <= i < j < |peers| :: peers[i].sock != peers[j].sock
    ensures var r := WithoutPeer(peers, c);
            && (forall i, j | 0 <= i < j < |r| :: r[i].sock != r[j].sock)
            && (forall i | 0 <= i < |r| :: r[i] in peers && r[i].sock != c)
            && (forall p | p in peers && p.sock != c :: p in r)
  {
    if peers != [] {
      WithoutPeerFacts(peers[1..], c);
      var rest := WithoutPeer(peers[1..], c);
      assert forall p :: p in peers <==> p == peers[0] || p in peers[1..];
      forall i | 0 <= i < |rest| ensures rest[i].sock != peers[0].sock {
        assert rest[i] in peers[1..];
      }
    }
  }

  lemma MemberPeers(conns: seq<Conn>, peers: seq<Peer>)
    requires PeersOk(conns, peers)
    ensures forall p | p in peers ::
              p.sock < |conns| && conns[p.sock].role == Mcp && !conns[p.sock].closed && conns[p.sock].clientId == p.clientId
  {
    hide Listed;
    forall p | p in peers
      ensures p.sock < |conns| && conns[p.sock].role == Mcp && !conns[p.sock].closed && conns[p.sock].clientId == p.clientId
    {
      var k :| 0 <= k < |peers| && peers[k] == p;
    }
  }

  /** The peers that a shut connection leaves behind. */
  ghost predicate Leaves(peers: seq<Peer>, c: nat, r: seq<Peer>) {
    && (forall i, j | 0 <= i < j < |r| :: r[i].sock != r[j].sock)
    && (forall p | p in r :: p in peers && p.sock != c)
    && (forall p | p in peers && p.sock != c :: p in r)
  }

  lemma LeavingPeers(conns: seq<Conn>, peers: seq<Peer>, c: nat)
    requires PeersOk(conns, peers) && c < |conns|
    ensures PeersOk(conns[c := Shut(conns[c])], WithoutPeer(peers, c))
  {
    WithoutPeerFacts(peers, c);
    assert Leaves(peers, c, WithoutPeer(peers, c));
    hide Listed, PeersOk, Leaves, WithoutPeer;
    RemainingPeers(conns, peers, c, WithoutPeer(peers, c));
  }

  lemma RemainingPeers(conns: seq<Conn>, peers: seq<Peer>, c: nat, r: seq<Peer>)
    requires PeersOk(conns, peers) && c < |conns| && Leaves(peers, c, r)
    ensures PeersOk(conns[c := Shut(conns[c])], r)
  {
    hide Listed;
    var conns' := conns[c := Shut(conns[c])];
    MemberPeers(conns, peers);
    forall i | 0 <= i < |r|
      ensures r[i].sock < |conns| && conns'[r[i].sock].role == Mcp && !conns'[r[i].sock].closed
              && conns'[r[i].sock].clientId == r[i].clientId
    {
      assert r[i] in r;
    }
    forall d | 0 <= d < |conns'| && conns'[d].role == Mcp && !conns'[d].closed ensures Listed(r, d) {
      assert conns[d].role == Mcp && !conns[d].closed;
      StillListed(peers, r, d);
    }
  }

  lemma StillListed(peers: seq<Peer>, r: seq<Peer>, d: nat)
    requires Listed(peers, d) && forall p | p in peers && p.sock == d :: p in r
    ensures Listed(r, d)
  {
    var i :| 0 <= i < |peers| && peers[i].sock == d;
    assert peers[i] in r;
    var k :| 0 <= k < |r| && r[k] == peers[i];
    assert r[k].sock == d;
  }

  lemma McpCloseKeepsInv(st: State, c: nat, now: int)
    requires Inv(st) && c < |st.conns| && st.conns[c].role == Mcp
    ensures Inv(HandleClose(st, c, now))
  {
    assert ConnFacts(st.conns[c], c, st.heap);
    ShutKeepsBinding(st.heap, st.conns, c);
    LeavingPeers(st.conns, st.peers, c);
    N.DisconnectedKeepsInv(st.notif, st.conns[c].clientId);
    assert N.Disconnected(st.notif, st.conns[c].clientId).log == st.notif.log;
    hide Binding, RegOk, DeathsOk, PeersOk, NewsOk, N.Inv, N.Disconnected, WithoutPeer;
  }

  lemma DeathFreesSocket(st: State, c: nat, h: nat, cause: Cause, now: int)
    requires h < |st.heap| && st.heap[h].status == S.Alive && c < |st.conns|
    ensures var t := MarkDead(st, h, cause, now);
            && |t.heap| == |st.heap| && |t.conns| == |st.conns|
            && t.heap[h].sock == None && t.conns[c].role == st.conns[c].role && t.conns[c].session == st.conns[c].session
  {
  }

  lemma CloseKeepsInv(st: State, c: nat, now: int)
    requires Inv(st) && Reaches(st, c)
    ensures Inv(HandleClose(st, c, now))
  {
    var conn := st.conns[c];
    assert ConnFacts(conn, c, st.heap);
    if conn.role == Mcp {
      McpCloseKeepsInv(st, c, now);
    } else {
      var h := if conn.session.Some? then conn.session.value else 0;
      var t := st.(conns := st.conns[c := Shut(conn)]);
      assert conn.session.Some? ==> SessionFacts(st.heap[h], h, st.conns);
      if conn.role == Cb && st.heap[h].status == S.Alive && st.heap[h].sock == Some(c) {
        MarkDeadKeepsInv(st, h, PipeClosed, now);
        ShutCommutes(st, c, h, PipeClosed, now);
        DeathFreesSocket(st, c, h, PipeClosed, now);
        hide Inv, MarkDead;
        ShutKeepsInv(MarkDead(st, h, PipeClosed, now), c);
        assert HandleClose(st, c, now) == MarkDead(t, h, PipeClosed, now);
      } else {
        hide Inv, MarkDead;
        ShutKeepsInv(st, c);
        assert HandleClose(st, c, now) == t;
      }
    }
  }

  // ---------- timers and injection ----------

  lemma {:induction false} PidPollKeepsInv(st: State, n: nat, gone: set<nat>, now: int)
    requires Inv(st) && n <= |st.reg|
    ensures Inv(PidPollFirst(st, n, gone, now))
    decreases n
  {
    hide Inv, MarkDead, At;
    if n > 0 {
      PidPollNext(st, n, gone, now);
      hide PidPollFirst;
      PidPollKeepsInv(st, n - 1, gone, now);
      MarkDeadKeepsInv(PidPollFirst(st, n - 1, gone, now), st.reg[n - 1], PidGone, now);
    }
  }

  lemma SweepKeepsInv(st: State, now: int)
    requires Inv(st)
    ensures Inv(st.(reg := Retained(st.heap, st.reg, now)))
  {
    RetainedFacts(st.heap, st.reg, now);
    hide Binding, RegOk, DeathsOk, PeersOk, NewsOk, Retained, N.Inv;
  }

  lemma InjectKeepsInv(st: State, h: nat, probe: S.Probe, writeThrows: bool, now: int)
    requires Inv(st)
    ensures Inv(InjectInto(st, h, probe, writeThrows, now))
  {
    hide Inv, MarkDead, WithSession, PipeOpen;
    MarkDeadKeepsInv(st, h, PidGoneInject, now);
    WithSessionKeepsInv(st, h, At(st.heap, h).(lastActivityAt := now));
  }

  lemma IdleIsNoNews(notif: N.State, w: nat, silentMs: int, now: int)
    ensures DeathNews(N.WentIdle(notif, w, silentMs, now).log) == DeathNews(notif.log)
  {
    if w in notif.live && w < |notif.owners| {
      var l := N.WentIdle(notif, w, silentMs, now).log;
      assert l[..|l| - 1] == notif.log;
    }
  }

  lemma WatcherKeepsInv(st: State, o: N.Owner, w: nat, silentMs: int, now: int)
    requires Inv(st)
    ensures Inv(st.(notif := N.Followup(st.notif, o)))
    ensures Inv(st.(notif := N.WentIdle(st.notif, w, silentMs, now)))
    ensures Inv(st.(notif := N.Expired(st.notif, w)))
  {
    N.FollowupKeepsInv(st.notif, o);
    N.WentIdleKeepsInv(st.notif, w, silentMs, now);
    N.ExpiredKeepsInv(st.notif, w);
    IdleIsNoNews(st.notif, w, silentMs, now);
    assert N.Followup(st.notif, o).log == st.notif.log;
    hide N.Inv, N.Followup, N.WentIdle, Inv;
    OtherNotifKeepsInv(st, N.Followup(st.notif, o));
    OtherNotifKeepsInv(st, N.WentIdle(st.notif, w, silentMs, now));
    OtherNotifKeepsInv(st, N.Expired(st.notif, w));
  }

  lemma ConnectKeepsInv(st: State)
    requires Inv(st)
    ensures Inv(st.(conns := st.conns + [NEW_CONN]))
  {
    var conns := st.conns + [NEW_CONN];
    assert Binding(st.heap, conns) by {
      forall h | 0 <= h < |st.heap| ensures SessionFacts(st.heap[h], h, conns) {
        assert SessionFacts(st.heap[h], h, st.conns);
      }
      forall c | 0 <= c < |conns| ensures ConnFacts(conns[c], c, st.heap) {
        assert c < |st.conns| ==> ConnFacts(st.conns[c], c, st.heap);
      }
    }
    assert PeersOk(conns, st.peers) by {
      hide Listed;
    }
    hide Binding, RegOk, DeathsOk, PeersOk, NewsOk, N.Inv;
  }

  // ---------- every step, every run ----------

  lemma StepKeepsInv(st: State, e: Event)
    requires Inv(st)
    ensures Inv(Step(st, e))
  {
    hide Inv, Dispatch, DestroyConn, HeartbeatTick, HandleClose, PidPollFirst, Retained, InjectInto, N.Followup, N.WentIdle, N.Expired;
    match e {
      case Connect => ConnectKeepsInv(st);
      case Received(c, f, now) => if Reaches(st, c) { DispatchKeepsInv(st, c, f, now); }
      case DecodeError(c) => DestroyKeepsInv(st, c);
      case HandshakeTimeout(c) => DestroyKeepsInv(st, c);
      case Tick(c, now) => if Reaches(st, c) { TickKeepsInv(st, c, now); }
      case Close(c, now) => if Reaches(st, c) { CloseKeepsInv(st, c, now); }
      case PidPoll(gone, now) => PidPollKeepsInv(st, |st.reg|, gone, now);
      case Sweep(now) => SweepKeepsInv(st, now);
      case Inject(h, probe, throws, now) => InjectKeepsInv(st, h, probe, throws, now);
      case InjectFollowup(c, h) =>
        if c < |st.conns| && h < |st.heap| {
          WatcherKeepsInv(st, N.Owner(st.conns[c].clientId, st.heap[h].id, st.heap[h].name), 0, 0, 0);
        }
      case WatcherIdle(w, silentMs, now) => WatcherKeepsInv(st, N.Owner("", "", ""), w, silentMs, now);
      case WatcherExpires(w) => WatcherKeepsInv(st, N.Owner("", "", ""), w, 0, 0);
    }
  }

  lemma InvReg(st: State)
    requires Inv(st)
    ensures RegOk(st.heap, st.reg)
  {
  }

  lemma InitialInv(file: seq<P.Entry>, now: int)
    ensures Inv(Initial(file, now))
  {
  }

  /** From any state that satisfies the invariant. */
  lemma {:induction false} RunInv(st: State, es: seq<Event>)
    requires Inv(st)
    ensures Inv(Run(st, es))
    decreases |es|
  {
    if es != [] {
      hide Inv, Step;
      RunInv(st, es[..|es| - 1]);
      StepKeepsInv(Run(st, es[..|es| - 1]), es[|es| - 1]);
    }
  }

  lemma {:induction false} RunAppend(st: State, a: seq<Event>, b: seq<Event>)
    ensures Run(st, a + b) == Run(Run(st, a), b)
    decreases |b|
  {
    hide Step;
    if b == [] {
      assert a + b == a;
    } else {
      assert (a + b)[..|a + b| - 1] == a + b[..|b| - 1];
      RunAppend(st, a, b[..|b| - 1]);
    }
  }

  lemma RunKeepsInv(file: seq<P.Entry>, start: int, es: seq<Event>)
    ensures Inv(Run(Initial(file, start), es))
  {
    hide Inv, Run;
    InitialInv(file, start);
    RunInv(Initial(file, start), es);
  }
}
