/**
 The daemon as one step machine: packages/bridged/src/pipe-server.ts with the listeners that
 packages/bridged/src/index.ts wires. Each event is one handler of the single-threaded process.
 Session objects are numbered in order of creation (their handle), sockets in order of
 connection; `heap` and `conns` keep every one ever created.
 */
module Daemon {
  import opened Wrappers
  import opened Constants
  import Base64
  import opened Decimal
  import N = Notifications
  import P = Persistence
  import R = Registry
  import S = Session

  datatype Role = Unknown | Cb | Mcp

  /** A socket with its ConnState. `closed`: its close handler has run. */
  datatype Conn = Conn(role: Role, session: Option<nat>, clientId: string, heartbeat: bool, destroyed: bool, closed: bool)

  /** One entry of mcpClientIdBySock. */
  datatype Peer = Peer(sock: nat, clientId: string)

  /** A call of the death listeners, and the client ids connected at that moment. */
  datatype Death = Death(handle: nat, id: string, name: string, cause: Cause, clients: seq<string>)

  datatype State = State(
    heap: seq<S.SessionData>,
    reg: seq<nat>,
    conns: seq<Conn>,
    peers: seq<Peer>,
    hist: seq<P.Entry>,
    notif: N.State,
    // history
    deaths: seq<Death>)

  function Initial(file: seq<P.Entry>, now: int): State {
    State([], [], [], [], P.Loaded(file, now), N.INITIAL, [])
  }

  const NEW_CONN := Conn(Unknown, None, "", false, false, false)

  const NOBODY := S.SessionData("", "", 0, 0, None, S.Dead, Some(0), [], 0, 0, 0, 0)

  function At(heap: seq<S.SessionData>, h: nat): S.SessionData {
    if h < |heap| then heap[h] else NOBODY
  }

  /** The registered sessions' fields, in the registry's order. */
  function Registered(heap: seq<S.SessionData>, reg: seq<nat>): seq<S.SessionData> {
    seq(|reg|, i requires 0 <= i < |reg| => At(heap, reg[i]))
  }

  function Clients(peers: seq<Peer>): seq<string> {
    seq(|peers|, i requires 0 <= i < |peers| => peers[i].clientId)
  }

  // ---------- events ----------

  /** hello: `probe` is what the liveness probe of a prior session's pid would say at that moment. */
  datatype HelloMsg = HelloMsg(secretOk: bool, name: string, id: string, pid: int, startedAt: int, resume: string, probe: S.Probe)

  datatype Frame =
    | Hello(hello: HelloMsg)
    | McpHello(secretOk: bool, clientId: string)
    | Stdout(data: string)
    | UserInput(at: int)
    | Bye(exitCode: int)
    | Pong
    | DrainNotifications
    | OtherFrame

  datatype Event =
    | Connect
    | Received(conn: nat, frame: Frame, now: int)
    | DecodeError(conn: nat)
    | HandshakeTimeout(conn: nat)
    | Tick(conn: nat, now: int)
    | Close(conn: nat, now: int)
    | PidPoll(gone: set<nat>, now: int)
    | Sweep(now: int)
    | Inject(handle: nat, probe: S.Probe, writeThrows: bool, now: int)
    | InjectFollowup(conn: nat, handle: nat)
    | WatcherIdle(watcher: nat, silentMs: int, now: int)
    | WatcherExpires(watcher: nat)

  // ---------- death ----------

  function Destroyed(conns: seq<Conn>, sock: Option<nat>): seq<Conn> {
    if sock.Some? && sock.value < |conns| then conns[sock.value := conns[sock.value].(destroyed := true)] else conns
  }

  /** Session.markDead with the death listeners it reaches. */
  function MarkDead(st: State, h: nat, cause: Cause, now: int): State {
    if h >= |st.heap| || st.heap[h].status == S.Dead then st
    else
      var s := st.heap[h];
      var reason := ReasonText(cause);
      var clients := Clients(st.peers);
      st.(heap := st.heap[h := S.Died(s, now)],
          conns := Destroyed(st.conns, s.sock),
          hist := P.MarkEnded(st.hist, s.id, reason, ExitCodeIn(reason), now),
          notif := N.FanoutDead(st.notif, clients, s.id, s.name, N.DeathKind(reason, ExitCodeIn(reason)), now),
          deaths := st.deaths + [Death(h, s.id, s.name, cause, clients)])
  }

  // ---------- connections ----------

  function DestroyConn(st: State, c: nat): State {
    st.(conns := Destroyed(st.conns, Some(c)))
  }

  /** isProcessAlive, given what the signal probe says. */
  predicate ProcessSeen(pid: int, probe: S.Probe) {
    pid > 0 && S.ProcessAlive(probe)
  }

  function RequestedLabel(m: HelloMsg): string {
    if m.name == "" then "session" else m.name
  }

  /** The handle that byId finds under the resume id of a hello, if it names one. */
  function Prior(st: State, m: HelloMsg): Option<nat> {
    if m.resume == "" then None
    else
      match R.IndexOfId(Registered(st.heap, st.reg), m.resume)
      case None => None
      case Some(k) => Some(st.reg[k])
  }

  predicate Resumes(st: State, m: HelloMsg) {
    var prior := Prior(st, m);
    && prior.Some? && prior.value < |st.heap|
    && st.heap[prior.value].status == S.Alive && ProcessSeen(st.heap[prior.value].pid, m.probe)
  }

  function Resume(st: State, c: nat, h: nat, now: int): State
    requires c < |st.conns| && h < |st.heap|
  {
    var s := st.heap[h];
    var conns := if s.sock == Some(c) then st.conns else Destroyed(st.conns, s.sock);
    st.(heap := st.heap[h := s.(sock := Some(c), missedPongs := 0, lastActivityAt := now)],
        conns := conns[c := conns[c].(role := Cb, session := Some(h), heartbeat := true)])
  }

  function Without(reg: seq<nat>, h: nat): seq<nat> {
    if reg == [] then []
    else Without(reg[..|reg| - 1], h) + (if reg[|reg| - 1] == h then [] else [reg[|reg| - 1]])
  }

  /** renameDeadCollisions touches the registered sessions. */
  function RenamedAll(heap: seq<S.SessionData>, reg: seq<nat>, name: string, now: int): seq<S.SessionData> {
    seq(|heap|, h requires 0 <= h < |heap| => if h in reg then R.Renamed(heap[h], name, now) else heap[h])
  }

  /** Map.set under the new session's id. */
  function Put(heap: seq<S.SessionData>, reg: seq<nat>, id: string, h: nat): seq<nat> {
    match R.IndexOfId(Registered(heap, reg), id)
    case None => reg + [h]
    case Some(k) => reg[k := h]
  }

  function Meta(s: S.SessionData): P.Entry {
    P.Entry(s.id, s.name, s.startedAt, s.lastActivityAt, None, None, None)
  }

  function Attach(st: State, c: nat, m: HelloMsg, now: int): State
    requires c < |st.conns|
  {
    var name := R.Resolved(Registered(st.heap, st.reg), RequestedLabel(m), now);
    var h := |st.heap|;
    var s := S.NewData(m.id, name, m.pid, m.startedAt, c, now);
    st.(heap := RenamedAll(st.heap, st.reg, name, now) + [s],
        reg := Put(st.heap, st.reg, m.id, h),
        conns := st.conns[c := st.conns[c].(role := Cb, session := Some(h), heartbeat := true)],
        notif := N.FanoutAdded(st.notif, Clients(st.peers), m.id, name, now),
        hist := P.AddOrUpdate(st.hist, Meta(s)))
  }

  /** The registry once a prior entry that cannot be resumed has been purged. */
  function Purged(st: State, m: HelloMsg): State {
    var prior := Prior(st, m);
    if prior.Some? then st.(reg := Without(st.reg, prior.value)) else st
  }

  predicate Accepted(m: HelloMsg) {
    m.secretOk && R.LabelValid(RequestedLabel(m))
  }

  function AcceptCb(st: State, c: nat, m: HelloMsg, now: int): State
    requires c < |st.conns|
  {
    if !Accepted(m) then DestroyConn(st, c)
    else if Resumes(st, m) then Resume(st, c, Prior(st, m).value, now)
    else Attach(Purged(st, m), c, m, now)
  }

  function AcceptMcp(st: State, c: nat, secretOk: bool, clientId: string): State
    requires c < |st.conns|
  {
    if !secretOk then DestroyConn(st, c)
    else
      var id := if clientId == "" then "mcp-" + OfNat(c) else clientId;
      st.(conns := st.conns[c := st.conns[c].(role := Mcp, clientId := id)], peers := st.peers + [Peer(c, id)])
  }

  function WithSession(st: State, h: nat, s: S.SessionData): State {
    if h < |st.heap| then st.(heap := st.heap[h := s]) else st
  }

  function CbFrame(st: State, h: nat, f: Frame, now: int): State {
    match f
    case Stdout(data) =>
      var decoded := Base64.DecodeStrict(data);
      if decoded.Some? then WithSession(st, h, S.WithStdout(At(st.heap, h), decoded.value, now)) else st
    case UserInput(at) => WithSession(st, h, S.WithUserInput(At(st.heap, h), at, now))
    case Bye(n) => MarkDead(st, h, ByeFrame(n), now)
    case Pong => WithSession(st, h, At(st.heap, h).(missedPongs := 0, lastActivityAt := now))
    case _ => st
  }

  function Dispatch(st: State, c: nat, f: Frame, now: int): State
    requires c < |st.conns|
  {
    var conn := st.conns[c];
    match conn.role
    case Unknown =>
      (match f
       case Hello(m) => AcceptCb(st, c, m, now)
       case McpHello(ok, id) => AcceptMcp(st, c, ok, id)
       case _ => DestroyConn(st, c))
    case Cb => if conn.session.Some? then CbFrame(st, conn.session.value, f, now) else st
    case Mcp => if f.DrainNotifications? then st.(notif := N.Drained(st.notif, conn.clientId)) else st
  }

  function HeartbeatTick(st: State, c: nat, now: int): State
    requires c < |st.conns|
  {
    var conn := st.conns[c];
    if !conn.heartbeat || conn.destroyed || conn.session == None then st
    else
      var h := conn.session.value;
      var s := At(st.heap, h);
      var t := WithSession(st, h, s.(missedPongs := s.missedPongs + 1));
      if s.missedPongs + 1 > HEARTBEAT_MISS_LIMIT then DestroyConn(MarkDead(t, h, HeartbeatLost, now), c) else t
  }

  function WithoutPeer(peers: seq<Peer>, c: nat): seq<Peer> {
    if peers == [] then []
    else (if peers[0].sock == c then [] else [peers[0]]) + WithoutPeer(peers[1..], c)
  }

  function HandleClose(st: State, c: nat, now: int): State
    requires c < |st.conns|
  {
    var conn := st.conns[c];
    var t := st.(conns := st.conns[c := conn.(heartbeat := false, destroyed := true, closed := true)]);
    match conn.role
    case Unknown => t
    case Cb =>
      if conn.session.Some? && At(t.heap, conn.session.value).status == S.Alive && At(t.heap, conn.session.value).sock == Some(c)
      then MarkDead(t, conn.session.value, PipeClosed, now)
      else t
    case Mcp => t.(peers := WithoutPeer(t.peers, c), notif := N.Disconnected(t.notif, conn.clientId))
  }

  // ---------- timers ----------

  /** pidPoll over the first `n` registry entries. */
  function PidPollFirst(st: State, n: nat, gone: set<nat>, now: int): State
    requires n <= |st.reg|
    decreases n
  {
    if n == 0 then st
    else
      var t := PidPollFirst(st, n - 1, gone, now);
      var h := st.reg[n - 1];
      if At(t.heap, h).pid <= 0 || h in gone then MarkDead(t, h, PidGone, now) else t
  }

  lemma PidPollNext(st: State, n: nat, gone: set<nat>, now: int)
    requires 0 < n <= |st.reg|
    ensures var t, h := PidPollFirst(st, n - 1, gone, now), st.reg[n - 1];
            PidPollFirst(st, n, gone, now)
            == if At(t.heap, h).pid <= 0 || h in gone then MarkDead(t, h, PidGone, now) else t
  {
  }

  function Retained(heap: seq<S.SessionData>, reg: seq<nat>, now: int): seq<nat> {
    if reg == [] then []
    else Retained(heap, reg[..|reg| - 1], now) + (if R.Expired(At(heap, reg[|reg| - 1]), now) then [] else [reg[|reg| - 1]])
  }

  // ---------- Session.inject and its follow-up ----------

  predicate PipeOpen(st: State, h: nat) {
    var s := At(st.heap, h);
    s.sock.Some? && s.sock.value < |st.conns| && !st.conns[s.sock.value].destroyed
  }

  function InjectInto(st: State, h: nat, probe: S.Probe, writeThrows: bool, now: int): State {
    var r := S.InjectDecision(At(st.heap, h).status, PipeOpen(st, h), probe, writeThrows, 0);
    if r.killed then MarkDead(st, h, PidGoneInject, now)
    else if r.frameWritten then WithSession(st, h, At(st.heap, h).(lastActivityAt := now))
    else st
  }

  /** Whether an event names a connection whose handlers can still run. */
  predicate Reaches(st: State, c: nat) {
    c < |st.conns| && !st.conns[c].closed
  }

  function Step(st: State, e: Event): State {
    match e
    case Connect => st.(conns := st.conns + [NEW_CONN])
    case Received(c, f, now) => if Reaches(st, c) then Dispatch(st, c, f, now) else st
    case DecodeError(c) => if Reaches(st, c) then DestroyConn(st, c) else st
    case HandshakeTimeout(c) => if Reaches(st, c) && st.conns[c].role == Unknown then DestroyConn(st, c) else st
    case Tick(c, now) => if Reaches(st, c) then HeartbeatTick(st, c, now) else st
    case Close(c, now) => if Reaches(st, c) then HandleClose(st, c, now) else st
    case PidPoll(gone, now) => PidPollFirst(st, |st.reg|, gone, now)
    case Sweep(now) => st.(reg := Retained(st.heap, st.reg, now))
    case Inject(h, probe, throws, now) => if h < |st.heap| then InjectInto(st, h, probe, throws, now) else st
    case InjectFollowup(c, h) =>
      if c < |st.conns| && st.conns[c].role == Mcp && h < |st.heap| then
        st.(notif := N.Followup(st.notif, N.Owner(st.conns[c].clientId, st.heap[h].id, st.heap[h].name)))
      else st
    case WatcherIdle(w, silentMs, now) => st.(notif := N.WentIdle(st.notif, w, silentMs, now))
    case WatcherExpires(w) => st.(notif := N.Expired(st.notif, w))
  }

  function Run(st: State, es: seq<Event>): State
    decreases |es|
  {
    if es == [] then st else Step(Run(st, es[..|es| - 1]), es[|es| - 1])
  }
}
