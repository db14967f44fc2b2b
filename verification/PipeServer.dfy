/**
 The daemon's objects: the pipe server with its connections, the registry, the history and the
 notification center (packages/bridged/src/pipe-server.ts, wired in packages/bridged/src/index.ts).
 Every handler is proved to do what the step machine of module Daemon says.
 */
module PipeServer {
  import opened Wrappers
  import opened Constants
  import opened Decimal
  import Base64
  import D = Daemon
  import F = Framing
  import I = DaemonInvariants
  import N = Notifications
  import P = Persistence
  import R = Registry
  import S = Session
  import W = DaemonWire

  /** A socket and its ConnState. */
  class ConnState {
    const sock: S.Socket
    var role: D.Role
    var session: S.Session?
    var clientId: string
    var heartbeat: bool
    /** Node emits 'close' once; nothing arrives afterwards. */
    ghost var closed: bool

    ghost function View(): D.Conn
      reads this, sock
    {
      D.Conn(role, if session == null then None else Some(session.handle), clientId, heartbeat, sock.destroyed, closed)
    }

    constructor (sock: S.Socket)
      requires !sock.destroyed
      ensures this.sock == sock && session == null && View() == D.NEW_CONN
    {
      this.sock, role, session, clientId, heartbeat, closed := sock, D.Unknown, null, "", false, false;
    }
  }

  ghost function SessionViews(ss: seq<S.Session>): seq<S.SessionData>
    reads ss
  {
    seq(|ss|, i requires 0 <= i < |ss| reads ss => ss[i].View())
  }

  ghost function Handles(ss: seq<S.Session>): seq<nat> {
    seq(|ss|, i requires 0 <= i < |ss| => ss[i].handle)
  }

  ghost function Socks(cs: seq<ConnState>): set<S.Socket> {
    set c | c in cs :: c.sock
  }

  ghost function ConnViews(cs: seq<ConnState>): seq<D.Conn>
    reads cs, Socks(cs)
  {
    seq(|cs|, i requires 0 <= i < |cs| reads cs, Socks(cs) => cs[i].View())
  }

  /** A session and its socket. */
  ghost function Attached(s: S.Session?): set<object>
    reads s
  {
    if s == null then {} else if s.pipeClient == null then {s} else {s, s.pipeClient}
  }

  class PipeServer {
    const registry: R.Registry
    const notifications: N.NotificationCenter
    const persistence: P.SessionPersistence
    var mcpClientIdBySock: seq<D.Peer>
    // histories: every session and connection ever created, and the calls of the death listeners
    ghost var heap: seq<S.Session>
    ghost var conns: seq<ConnState>
    ghost var deaths: seq<D.Death>

    constructor (file: seq<P.Entry>, now: int)
      ensures Valid() && View() == D.Initial(file, now)
      ensures fresh(registry) && fresh(notifications) && fresh(persistence)
    {
      registry := new R.Registry();
      notifications := new N.NotificationCenter();
      persistence := new P.SessionPersistence(file, now);
      mcpClientIdBySock, heap, conns, deaths := [], [], [], [];
    }

    ghost function View(): D.State
      reads this, registry, notifications, persistence, heap, conns, Socks(conns)
    {
      D.State(SessionViews(heap), Handles(registry.sessions), ConnViews(conns), mcpClientIdBySock, persistence.state, notifications.View(), deaths)
    }

    ghost predicate IsSession(s: S.Session)
      reads this`heap
    {
      s.handle < |heap| && heap[s.handle] == s
    }

    ghost predicate IsSock(k: S.Socket)
      reads this`conns
    {
      k.number < |conns| && conns[k.number].sock == k
    }

    /** Sessions and connections refer to each other's objects only, under their own numbers. */
    ghost predicate Linked()
      reads this`heap, this`conns, heap, conns
    {
      && (forall i | 0 <= i < |heap| :: heap[i].handle == i)
      && (forall i | 0 <= i < |conns| :: conns[i].sock.number == i)
      && (forall i | 0 <= i < |heap| :: heap[i].pipeClient != null ==> IsSock(heap[i].pipeClient))
      && (forall i | 0 <= i < |conns| :: conns[i].session != null ==> IsSession(conns[i].session))
    }

    /** The registry holds sessions with distinct ids. */
    ghost predicate Enrolled()
      reads this`heap, registry
    {
      && (forall i | 0 <= i < |registry.sessions| :: IsSession(registry.sessions[i]))
      && (forall i, j | 0 <= i < j < |registry.sessions| :: registry.sessions[i].id != registry.sessions[j].id)
    }

    ghost predicate Valid()
      reads this`heap, this`conns, registry, heap, conns
    {
      Linked() && Enrolled()
    }

    ghost predicate IsConn(conn: ConnState)
      reads this`conns, conn
    {
      conn.sock.number < |conns| && conns[conn.sock.number] == conn && !conn.closed
    }

    /** connectedMcpClientIds */
    method ConnectedMcpClientIds() returns (ids: seq<string>)
      ensures ids == D.Clients(mcpClientIdBySock)
      ensures |ids| == |mcpClientIdBySock| && forall i | 0 <= i < |ids| :: ids[i] == mcpClientIdBySock[i].clientId
    {
      ids := [];
      for i := 0 to |mcpClientIdBySock|
        invariant ids == D.Clients(mcpClientIdBySock)[..i]
      {
        ids := ids + [mcpClientIdBySock[i].clientId];
      }
    }

    /** The death listener: fan-out, then the history. */
    method OnSessionDeath(s: S.Session, cause: Cause, now: int)
      modifies this`deaths, notifications, persistence
      ensures deaths == old(deaths) + [D.Death(s.handle, s.id, s.name, cause, D.Clients(mcpClientIdBySock))]
      ensures var reason := ReasonText(cause);
              && notifications.View() == N.FanoutDead(old(notifications.View()), D.Clients(mcpClientIdBySock), s.id, s.name,
                                                      N.DeathKind(reason, ExitCodeIn(reason)), now)
              && persistence.state == P.MarkEnded(old(persistence.state), s.id, reason, ExitCodeIn(reason), now)
    {
      var reason := ReasonText(cause);
      var exitCode := ExitCodeIn(reason);
      var clients := ConnectedMcpClientIds();
      deaths := deaths + [D.Death(s.handle, s.id, s.name, cause, clients)];
      notifications.FanoutSessionDead(clients, s.id, s.name, reason, exitCode, now);
      persistence.End(s.id, reason, exitCode, now);
    }

    /** Session.markDead, seen from the server. */
    method Kill(s: S.Session, now: int) returns (fired: bool)
      requires Valid() && IsSession(s)
      modifies s, s.pipeClient
      ensures Valid()
      ensures (fired <==> old(s.status) == S.Alive) && s.name == old(s.name)
      ensures SessionViews(heap) == if fired then old(SessionViews(heap))[s.handle := S.Died(old(s.View()), now)] else old(SessionViews(heap))
      ensures ConnViews(conns) == if fired then D.Destroyed(old(ConnViews(conns)), old(s.View().sock)) else old(ConnViews(conns))
    {
      ghost var k := s.pipeClient;
      fired := s.MarkDead(now);
      hide S.Died;
      assert forall i | 0 <= i < |heap| && i != s.handle :: heap[i] != s && heap[i].View() == old(heap[i].View());
      assert forall i | 0 <= i < |conns| :: conns[i].sock != k ==> conns[i].View() == old(conns[i].View());
    }

    /** Session.markDead with the listeners that the registry attached. */
    method MarkDead(s: S.Session, cause: Cause, now: int)
      requires Valid() && IsSession(s)
      modifies this`deaths, notifications, persistence, s, s.pipeClient
      ensures Valid()
      ensures View() == D.MarkDead(old(View()), s.handle, cause, now)
    {
      hide N.FanoutDead, P.MarkEnded, ReasonText, ExitCodeIn, D.Clients, N.DeathKind, Valid, S.Died, D.Destroyed;
      assert old(SessionViews(heap))[s.handle] == old(s.View());
      var fired := Kill(s, now);
      if fired {
        OnSessionDeath(s, cause, now);
      }
    }

    // ---------- connections ----------

    method HandleConnection(sock: S.Socket) returns (conn: ConnState)
      requires Valid() && sock.number == |conns| && !sock.destroyed
      modifies this`conns
      ensures Valid() && IsConn(conn) && conn.sock == sock && fresh(conn)
      ensures View() == D.Step(old(View()), D.Connect)
    {
      conn := new ConnState(sock);
      conns := conns + [conn];
      assert ConnViews(conns) == old(ConnViews(conns)) + [D.NEW_CONN];
    }

    method DestroySock(conn: ConnState)
      requires Valid() && IsConn(conn)
      modifies conn.sock
      ensures Valid()
      ensures View() == D.DestroyConn(old(View()), conn.sock.number)
    {
      conn.sock.Destroy();
      assert forall i | 0 <= i < |conns| && conns[i] != conn :: conns[i].sock != conn.sock;
      assert ConnViews(conns) == D.Destroyed(old(ConnViews(conns)), Some(conn.sock.number));
      assert SessionViews(heap) == old(SessionViews(heap));
    }

    /** The data handler when the decoder throws. */
    method OnDecodeError(conn: ConnState)
      requires Valid() && IsConn(conn)
      modifies conn.sock
      ensures Valid()
      ensures View() == D.Step(old(View()), D.DecodeError(conn.sock.number))
    {
      DestroySock(conn);
    }

    method OnHandshakeTimeout(conn: ConnState)
      requires Valid() && IsConn(conn)
      modifies conn.sock
      ensures Valid()
      ensures View() == D.Step(old(View()), D.HandshakeTimeout(conn.sock.number))
    {
      if conn.role != D.Unknown {
        return;
      }
      DestroySock(conn);
    }

    method AcceptMcp(conn: ConnState, secretOk: bool, clientId: string, connId: string)
      requires Valid() && IsConn(conn) && connId == OfNat(conn.sock.number)
      modifies this`mcpClientIdBySock, conn, conn.sock
      ensures Valid()
      ensures IsConn(conn) && View() == D.AcceptMcp(old(View()), conn.sock.number, secretOk, clientId)
    {
      if !secretOk {
        DestroySock(conn);
        return;
      }
      conn.role := D.Mcp;
      conn.clientId := if clientId == "" then "mcp-" + connId else clientId;
      mcpClientIdBySock := mcpClientIdBySock + [D.Peer(conn.sock.number, conn.clientId)];
      var n := conn.sock.number;
      assert ConnViews(conns) == old(ConnViews(conns))[n := old(ConnViews(conns))[n].(role := D.Mcp, clientId := conn.clientId)];
      assert SessionViews(heap) == old(SessionViews(heap));
    }

    // ---------- frames of an attached cb ----------

    method HandleCbFrame(conn: ConnState, f: D.Frame, now: int)
      requires Valid() && IsConn(conn)
      modifies this`deaths, notifications, persistence, Attached(conn.session)
      ensures Valid()
      ensures View() == if conn.session == null then old(View()) else D.CbFrame(old(View()), conn.session.handle, f, now)
    {
      var session := conn.session;
      if session == null {
        return;
      }
      match f {
        case Stdout(data) =>
          var decoded := Base64.DecodeStrict(data);
          if decoded.Some? {
            OnStdout(session, decoded.value, now);
          }
        case UserInput(at) => OnUserInput(session, at, now);
        case Bye(exitCode) => MarkDead(session, ByeFrame(exitCode), now);
        case Pong => OnPong(session, now);
        case _ =>
      }
    }

    method OnStdout(s: S.Session, bytes: seq<byte>, now: int)
      requires Valid() && IsSession(s)
      modifies s
      ensures Valid()
      ensures View() == D.WithSession(old(View()), s.handle, S.WithStdout(old(s.View()), bytes, now))
    {
      s.OnStdout(bytes, now);
      hide S.WithStdout;
      assert forall i | 0 <= i < |heap| && i != s.handle :: heap[i] != s;
      assert SessionViews(heap) == old(SessionViews(heap))[s.handle := s.View()];
      assert ConnViews(conns) == old(ConnViews(conns));
    }

    method OnUserInput(s: S.Session, at: int, now: int)
      requires Valid() && IsSession(s)
      modifies s
      ensures Valid()
      ensures View() == D.WithSession(old(View()), s.handle, S.WithUserInput(old(s.View()), at, now))
    {
      s.OnUserInput(at, now);
      hide S.WithUserInput;
      assert forall i | 0 <= i < |heap| && i != s.handle :: heap[i] != s;
      assert SessionViews(heap) == old(SessionViews(heap))[s.handle := s.View()];
      assert ConnViews(conns) == old(ConnViews(conns));
    }

    method OnPong(s: S.Session, now: int)
      requires Valid() && IsSession(s)
      modifies s
      ensures Valid()
      ensures View() == D.WithSession(old(View()), s.handle, old(s.View()).(missedPongs := 0, lastActivityAt := now))
    {
      s.missedPongs := 0;
      s.lastActivityAt := now;
      assert forall i | 0 <= i < |heap| && i != s.handle :: heap[i] != s;
      assert SessionViews(heap) == old(SessionViews(heap))[s.handle := s.View()];
      assert ConnViews(conns) == old(ConnViews(conns));
    }

    // ---------- heartbeat and closing ----------

    /** The interval that startHeartbeat sets. */
    method HeartbeatTick(conn: ConnState, now: int)
      requires Valid() && IsConn(conn)
      modifies this`deaths, notifications, persistence, conn.sock, Attached(conn.session)
      ensures Valid()
      ensures View() == D.Step(old(View()), D.Tick(conn.sock.number, now))
    {
      hide D.MarkDead, D.DestroyConn, D.WithSession, Valid;
      var session := conn.session;
      if !conn.heartbeat || conn.sock.destroyed || session == null {
        return;
      }
      BoundTo(conn);
      CountMiss(session);
      if session.missedPongs > HEARTBEAT_MISS_LIMIT {
        MarkDead(session, HeartbeatLost, now);
        DestroySock(conn);
      }
    }

    /** What the views say about a connection and its session. */
    lemma BoundTo(conn: ConnState)
      requires Valid() && IsConn(conn)
      ensures ConnViews(conns)[conn.sock.number] == conn.View()
      ensures conn.session != null ==>
                IsSession(conn.session) && D.At(SessionViews(heap), conn.session.handle) == conn.session.View()
    {
    }

    method CountMiss(s: S.Session)
      requires Valid() && IsSession(s)
      modifies s`missedPongs
      ensures Valid() && s.missedPongs == old(s.missedPongs) + 1
      ensures View() == D.WithSession(old(View()), s.handle, old(s.View()).(missedPongs := old(s.missedPongs) + 1))
    {
      s.missedPongs := s.missedPongs + 1;
      assert forall i | 0 <= i < |heap| && i != s.handle :: heap[i] != s;
      assert SessionViews(heap) == old(SessionViews(heap))[s.handle := s.View()];
      assert ConnViews(conns) == old(ConnViews(conns));
    }

    method Shut(conn: ConnState)
      requires Valid() && IsConn(conn)
      modifies conn, conn.sock
      ensures Valid() && conn.closed && conn.role == old(conn.role) && conn.session == old(conn.session) && conn.clientId == old(conn.clientId)
      ensures var n, before := conn.sock.number, old(ConnViews(conns));
              View() == old(View()).(conns := before[n := before[n].(heartbeat := false, destroyed := true, closed := true)])
    {
      conn.heartbeat := false;
      conn.closed := true;
      conn.sock.Destroy();
      var n := conn.sock.number;
      assert forall i | 0 <= i < |conns| && i != n :: conns[i] != conn && conns[i].sock != conn.sock;
      assert ConnViews(conns) == old(ConnViews(conns))[n := conn.View()];
      assert SessionViews(heap) == old(SessionViews(heap));
    }

    method HandleClose(conn: ConnState, now: int)
      requires Valid() && IsConn(conn)
      modifies this`mcpClientIdBySock, this`deaths, notifications, persistence
      modifies conn, conn.sock, Attached(conn.session)
      ensures Valid()
      ensures View() == D.Step(old(View()), D.Close(conn.sock.number, now))
    {
      hide D.MarkDead, Valid, D.WithoutPeer, N.Disconnected;
      BoundTo(conn);
      if conn.session != null {
        PipeIs(conn.session, conn);
      }
      Shut(conn);
      if conn.role == D.Cb {
        if conn.session != null && conn.session.status == S.Alive && conn.session.pipeClient == conn.sock {
          MarkDead(conn.session, PipeClosed, now);
        }
      } else if conn.role == D.Mcp {
        ForgetPeer(conn.sock.number);
        notifications.ClientDisconnected(conn.clientId);
      }
    }

    /** Sockets are equal when their numbers are. */
    lemma PipeIs(s: S.Session, conn: ConnState)
      requires Valid() && IsSession(s) && conn in conns
      ensures s.pipeClient == conn.sock <==> s.View().sock == Some(conn.sock.number)
    {
    }

    /** mcpClientIdBySock.delete */
    method ForgetPeer(n: nat)
      modifies this`mcpClientIdBySock
      ensures mcpClientIdBySock == D.WithoutPeer(old(mcpClientIdBySock), n)
    {
      mcpClientIdBySock := D.WithoutPeer(mcpClientIdBySock, n);
    }

    // ---------- accepting a cb ----------

    /** The registry's own view is the machine's. */
    lemma RegistryViews()
      requires Valid()
      ensures registry.View() == D.Registered(SessionViews(heap), Handles(registry.sessions))
      ensures registry.Valid()
    {
    }

    /** The connection takes on the role of a cb connection of `s`. */
    method Join(conn: ConnState, s: S.Session)
      requires Valid() && IsConn(conn) && IsSession(s)
      modifies conn
      ensures Valid()
      ensures var n, before := conn.sock.number, old(ConnViews(conns));
              View() == old(View()).(conns := before[n := before[n].(role := D.Cb, session := Some(s.handle), heartbeat := true)])
      ensures IsConn(conn)
    {
      conn.role := D.Cb;
      conn.session := s;
      conn.heartbeat := true;
      var n := conn.sock.number;
      assert forall i | 0 <= i < |conns| && i != n :: conns[i] != conn;
      assert ConnViews(conns) == old(ConnViews(conns))[n := conn.View()];
      assert SessionViews(heap) == old(SessionViews(heap));
    }

    /** Destroys the socket that a resume replaces. */
    method Detach(prior: S.Session, conn: ConnState)
      requires Valid() && IsSession(prior) && IsConn(conn)
      modifies prior.pipeClient
      ensures Valid()
      ensures var before, sock := old(View()), prior.View().sock;
              View() == before.(conns := if sock == Some(conn.sock.number) then before.conns else D.Destroyed(before.conns, sock))
    {
      PipeIs(prior, conn);
      var oldSock := prior.pipeClient;
      if oldSock != null && oldSock != conn.sock {
        oldSock.Destroy();
        assert forall i | 0 <= i < |conns| && i != oldSock.number :: conns[i].sock != oldSock;
      }
      assert SessionViews(heap) == old(SessionViews(heap));
      assert ConnViews(conns) == if oldSock == null || oldSock == conn.sock then old(ConnViews(conns))
                                 else D.Destroyed(old(ConnViews(conns)), Some(oldSock.number));
    }

    method Rebind(prior: S.Session, sock: S.Socket, now: int)
      requires Valid() && IsSession(prior) && IsSock(sock)
      modifies prior
      ensures Valid()
      ensures View() == D.WithSession(old(View()), prior.handle,
                          old(prior.View()).(sock := Some(sock.number), missedPongs := 0, lastActivityAt := now))
    {
      prior.pipeClient := sock;
      prior.missedPongs := 0;
      prior.lastActivityAt := now;
      assert forall i | 0 <= i < |heap| && i != prior.handle :: heap[i] != prior;
      assert SessionViews(heap) == old(SessionViews(heap))[prior.handle := prior.View()];
      assert ConnViews(conns) == old(ConnViews(conns));
    }

    method ResumeSession(conn: ConnState, prior: S.Session, now: int)
      requires Valid() && IsConn(conn) && IsSession(prior)
      modifies conn, prior, prior.pipeClient
      ensures Valid()
      ensures IsConn(conn) && View() == D.Resume(old(View()), conn.sock.number, prior.handle, now)
    {
      hide Valid, D.Destroyed;
      assert old(View()).heap[prior.handle] == prior.View();
      Detach(prior, conn);
      ConnIsSock(conn);
      Rebind(prior, conn.sock, now);
      Join(conn, prior);
    }

    lemma ConnIsSock(conn: ConnState)
      requires IsConn(conn)
      ensures IsSock(conn.sock)
    {
    }

    lemma DropAt(k: nat)
      requires Valid() && k < |registry.sessions|
      ensures var reg := Handles(registry.sessions); D.Without(reg, reg[k]) == reg[..k] + reg[k + 1..]
    {
      var reg := Handles(registry.sessions);
      assert forall i, j | 0 <= i < j < |reg| :: registry.sessions[i].id != registry.sessions[j].id;
      WithoutAt(reg, k);
    }

    /** registry.remove under a key that is present. */
    method Purge(k: nat)
      requires Valid() && k < |registry.sessions|
      modifies registry
      ensures Valid()
      ensures View() == old(View()).(reg := D.Without(old(View()).reg, old(View()).reg[k]))
    {
      RegistryViews();
      hide R.DistinctIds;
      DropAt(k);
      registry.RemoveAt(k);
      assert Handles(registry.sessions) == Handles(old(registry.sessions))[..k] + Handles(old(registry.sessions))[k + 1..];
    }

    /** resolveLabel */
    method ResolveLabel(requested: string, now: int) returns (chosen: string)
      requires Valid()
      modifies registry.sessions
      ensures Valid()
      ensures chosen == R.Resolved(D.Registered(old(SessionViews(heap)), Handles(registry.sessions)), requested, now)
      ensures View() == old(View()).(heap := D.RenamedAll(old(SessionViews(heap)), Handles(registry.sessions), chosen, now))
    {
      hide R.Resolved, R.Renamed;
      RegistryViews();
      chosen := registry.ChooseLabel(requested, now);
      RenameDeadCollisions(chosen, now);
    }

    method RenameDeadCollisions(name: string, now: int)
      requires Valid()
      modifies registry.sessions
      ensures Valid()
      ensures View() == old(View()).(heap := D.RenamedAll(old(SessionViews(heap)), Handles(registry.sessions), name, now))
    {
      hide R.Renamed;
      ghost var before := SessionViews(heap);
      RegistryViews();
      registry.RenameDeadCollisions(name, now);
      RenamedHeap(before, name, now);
      assert ConnViews(conns) == old(ConnViews(conns));
    }

    lemma RenamedHeap(before: seq<S.SessionData>, name: string, now: int)
      requires Valid() && |before| == |heap|
      requires forall i | 0 <= i < |registry.sessions| ::
                 registry.sessions[i].View() == R.Renamed(before[registry.sessions[i].handle], name, now)
      requires forall h | 0 <= h < |heap| && heap[h] !in registry.sessions :: heap[h].View() == before[h]
      ensures SessionViews(heap) == D.RenamedAll(before, Handles(registry.sessions), name, now)
    {
      hide R.Renamed;
      var reg := Handles(registry.sessions);
      forall h | 0 <= h < |heap|
        ensures heap[h].View() == if h in reg then R.Renamed(before[h], name, now) else before[h]
      {
        if h in reg {
          var i :| 0 <= i < |reg| && reg[i] == h;
          assert registry.sessions[i] == heap[h];
        } else {
          forall i | 0 <= i < |registry.sessions| ensures registry.sessions[i] != heap[h] {
            assert reg[i] != h;
          }
        }
      }
    }

    ghost method Grow(s: S.Session)
      requires Valid() && s !in heap && s.handle == |heap| && s.pipeClient != null && IsSock(s.pipeClient)
      modifies this`heap
      ensures Valid() && heap == old(heap) + [s] && IsSession(s)
      ensures s !in registry.sessions
      ensures View() == old(View()).(heap := old(SessionViews(heap)) + [s.View()])
    {
      heap := heap + [s];
      assert SessionViews(heap) == old(SessionViews(heap)) + [s.View()];
      assert ConnViews(conns) == old(ConnViews(conns));
    }

    /** registry.add of a session made for this connection. */
    method Register(s: S.Session)
      requires Valid() && s !in heap && s.handle == |heap| && s.pipeClient != null && IsSock(s.pipeClient)
      modifies this`heap, registry
      ensures Valid() && IsSession(s)
      ensures heap == old(heap) + [s]
      ensures View() == old(View()).(heap := old(SessionViews(heap)) + [s.View()],
                                     reg := D.Put(old(SessionViews(heap)), Handles(old(registry.sessions)), s.id, s.handle))
    {
      RegistryViews();
      hide R.DistinctIds, R.IndexOfId, Valid;
      Grow(s);
      RegistryViews();
      AddToRegistry(s);
    }

    method AddToRegistry(s: S.Session)
      requires Valid() && IsSession(s) && s !in registry.sessions
      modifies registry
      ensures Valid()
      ensures View() == old(View()).(reg := D.Put(old(SessionViews(heap)), Handles(old(registry.sessions)), s.id, s.handle))
    {
      RegistryViews();
      hide R.DistinctIds, R.IndexOfId, Linked, Handles, SessionViews, ConnViews, D.Put;
      PutIs(s.id, s.handle);
      ghost var k, before := R.IndexOfId(registry.View(), s.id), registry.sessions;
      HandlesAfterAdd(before, k, s);
      hide Enrolled, IsSession;
      MapSet(s, k);
      assert Handles(registry.sessions) == match k case None => Handles(before) + [s.handle] case Some(i) => Handles(before)[i := s.handle];
      StillEnrolled(before, s);
    }

    method MapSet(s: S.Session, ghost k: Option<nat>)
      requires registry.Valid() && s !in registry.sessions && k == R.IndexOfId(registry.View(), s.id)
      requires k.Some? ==> k.value < |registry.sessions|
      modifies registry
      ensures registry.Valid()
      ensures registry.sessions == match k case None => old(registry.sessions) + [s] case Some(i) => old(registry.sessions)[i := s]
      ensures forall i | 0 <= i < |registry.sessions| :: registry.sessions[i] in old(registry.sessions) || registry.sessions[i] == s
    {
      hide R.DistinctIds, R.IndexOfId;
      registry.Add(s);
    }

    lemma PutIs(id: string, h: nat)
      requires Valid()
      ensures var k, reg := R.IndexOfId(registry.View(), id), Handles(registry.sessions);
              && (k.Some? ==> k.value < |reg|)
              && D.Put(SessionViews(heap), reg, id, h) == match k case None => reg + [h] case Some(i) => reg[i := h]
    {
      RegistryViews();
      IndexInBounds(registry.View(), id);
      hide R.IndexOfId;
    }

    lemma StillEnrolled(before: seq<S.Session>, s: S.Session)
      requires registry.Valid() && IsSession(s) && forall x | x in before :: IsSession(x)
      requires forall i | 0 <= i < |registry.sessions| :: registry.sessions[i] in before || registry.sessions[i] == s
      ensures Enrolled()
    {
      IdsStayDistinct();
    }

    lemma HandlesAfterAdd(before: seq<S.Session>, k: Option<nat>, s: S.Session)
      requires k.Some? ==> k.value < |before|
      ensures |Handles(before)| == |before|
      ensures match k
              case None => Handles(before + [s]) == Handles(before) + [s.handle]
              case Some(i) => Handles(before[i := s]) == Handles(before)[i := s.handle]
    {
    }

    lemma IndexInBounds(ss: seq<S.SessionData>, id: string)
      ensures var k := R.IndexOfId(ss, id); k.Some? ==> k.value < |ss|
    {
    }

    lemma IdsStayDistinct()
      requires registry.Valid()
      ensures forall i, j | 0 <= i < j < |registry.sessions| :: registry.sessions[i].id != registry.sessions[j].id
    {
      var ss := registry.View();
      forall i, j | 0 <= i < j < |registry.sessions| ensures registry.sessions[i].id != registry.sessions[j].id {
        assert ss[i].id != ss[j].id;
      }
    }

    /** The tail of acceptCb: label, session, registry, announcement, history, heartbeat. */
    method AttachSession(conn: ConnState, m: D.HelloMsg, now: int)
      requires Valid() && IsConn(conn)
      modifies this`heap, registry, registry.sessions, notifications, persistence, conn
      ensures Valid()
      ensures IsConn(conn) && View() == D.Attach(old(View()), conn.sock.number, m, now)
      ensures forall s | s in heap :: s in old(heap) || fresh(s)
    {
      hide Valid, D.Put, D.RenamedAll, I.SameCores, R.Resolved, N.FanoutAdded, P.AddOrUpdate, D.Clients, D.Registered;
      var finalLabel := ResolveLabel(D.RequestedLabel(m), now);
      ConnIsSock(conn);
      ghost var mid, size := View(), |heap|;
      var session := new S.Session(|heap|, m.id, finalLabel, m.pid, m.startedAt, conn.sock, now);
      assert Valid() && View() == mid && session !in heap;
      Register(session);
      Join(conn, session);
      Announce(session, now);
      I.RenamingKeepsCores(old(View()).heap, old(View()).reg, finalLabel, now);
      I.PutIgnoresRenaming(old(View()).heap, mid.heap, old(View()).reg, m.id, size);
    }

    /** session_added to every connected client, and the history entry. */
    method Announce(s: S.Session, now: int)
      requires Valid()
      modifies notifications, persistence
      ensures Valid()
      ensures View() == old(View()).(
                notif := N.FanoutAdded(old(notifications.View()), D.Clients(mcpClientIdBySock), s.id, s.name, now),
                hist := P.AddOrUpdate(old(persistence.state), D.Meta(s.View())))
    {
      hide N.FanoutAdded, P.AddOrUpdate, D.Clients;
      var clients := ConnectedMcpClientIds();
      notifications.FanoutSessionAdded(clients, s.id, s.name, now);
      persistence.Add(P.Entry(s.id, s.name, s.startedAt, s.lastActivityAt, None, None, None));
    }

    /** The resume path; unless it rebinds the prior session, it leaves the registry without it. */
    method ResumeOrPurge(conn: ConnState, m: D.HelloMsg, now: int) returns (resumed: bool)
      requires Valid() && IsConn(conn)
      modifies registry, heap, Socks(conns), conn
      ensures Valid() && heap == old(heap)
      ensures resumed == D.Resumes(old(View()), m)
      ensures resumed ==> View() == D.Resume(old(View()), conn.sock.number, D.Prior(old(View()), m).value, now)
      ensures IsConn(conn) && (!resumed ==> View() == D.Purged(old(View()), m))
    {
      hide Valid, D.Resume, S.ProcessAlive, D.Prior, D.Without;
      if m.resume == "" {
        NoPrior(m);
        return false;
      }
      Footprints(conn);
      var k := FindPrior(m);
      if k == None {
        return false;
      }
      var prior := registry.sessions[k.value];
      if prior.status == S.Alive && prior.pid > 0 && S.ProcessAlive(m.probe) {
        ResumeSession(conn, prior, now);
        return true;
      }
      Purge(k.value);
      return false;
    }

    lemma NoPrior(m: D.HelloMsg)
      requires m.resume == ""
      ensures D.Prior(View(), m) == None
    {
    }

    method AcceptCb(conn: ConnState, m: D.HelloMsg, now: int)
      requires Valid() && IsConn(conn)
      modifies this`heap, registry, heap, Socks(conns), notifications, persistence, conn
      ensures Valid()
      ensures IsConn(conn) && View() == D.AcceptCb(old(View()), conn.sock.number, m, now)
      ensures forall s | s in heap :: s in old(heap) || fresh(s)
    {
      hide Valid, D.Attach, D.Resume, D.Resumes, D.Purged, D.DestroyConn, R.LabelValid;
      Footprints(conn);
      if !m.secretOk {
        DestroySock(conn);
        return;
      }
      var rawLabel := if m.name == "" then "session" else m.name;
      if !R.LabelValid(rawLabel) {
        DestroySock(conn);
        return;
      }
      var resumed := ResumeOrPurge(conn, m, now);
      if !resumed {
        Footprints(conn);
        AttachSession(conn, m, now);
      }
    }

    /** registry.byId of the resume id. */
    method FindPrior(m: D.HelloMsg) returns (k: Option<nat>)
      requires Valid() && m.resume != ""
      ensures k.Some? ==>
                && k.value < |registry.sessions| && IsSession(registry.sessions[k.value])
                && D.Prior(View(), m) == Some(registry.sessions[k.value].handle)
                && View().heap[registry.sessions[k.value].handle] == registry.sessions[k.value].View()
      ensures k == None ==> D.Prior(View(), m) == None
    {
      RegistryViews();
      hide R.IndexOfId, R.DistinctIds;
      IndexInBounds(registry.View(), m.resume);
      k := registry.IndexOf(m.resume);
    }

    /** The objects a handler can reach are the server's own. */
    lemma Footprints(conn: ConnState)
      requires Valid() && IsConn(conn)
      ensures conn.sock in Socks(conns)
      ensures forall i | 0 <= i < |registry.sessions| ::
                registry.sessions[i] in heap
                && (registry.sessions[i].pipeClient != null ==> registry.sessions[i].pipeClient in Socks(conns))
      ensures conn.session != null ==> conn.session in heap && (conn.session.pipeClient != null ==> conn.session.pipeClient in Socks(conns))
    {
      assert forall k: S.Socket | IsSock(k) :: conns[k.number] in conns;
    }

    /** The frame that establishes the role, or fails to. */
    method FirstFrame(conn: ConnState, f: D.Frame, connId: string, now: int)
      requires Valid() && IsConn(conn) && conn.role == D.Unknown && connId == OfNat(conn.sock.number)
      modifies this`heap, this`mcpClientIdBySock, registry, heap, Socks(conns), notifications, persistence, conn
      ensures Valid() && IsConn(conn)
      ensures forall s | s in heap :: s in old(heap) || fresh(s)
      ensures View() == D.Dispatch(old(View()), conn.sock.number, f, now)
    {
      hide Valid, D.AcceptCb, D.AcceptMcp, D.DestroyConn;
      Footprints(conn);
      BoundTo(conn);
      match f {
        case Hello(m) => AcceptCb(conn, m, now);
        case McpHello(secretOk, clientId) => AcceptMcp(conn, secretOk, clientId, connId);
        case _ => DestroySock(conn);
      }
    }

    /** A frame on a connection whose role is known. */
    method LaterFrame(conn: ConnState, f: D.Frame, now: int)
      requires Valid() && IsConn(conn) && conn.role != D.Unknown
      modifies this`deaths, heap, Socks(conns), notifications, persistence
      ensures Valid()
      ensures View() == D.Dispatch(old(View()), conn.sock.number, f, now)
    {
      hide Valid, D.CbFrame, N.Drained;
      Footprints(conn);
      BoundTo(conn);
      if conn.role == D.Cb {
        HandleCbFrame(conn, f, now);
      } else if f.DrainNotifications? {
        var _ := DrainFor(conn.clientId);
      }
    }

    /** One decoded frame. */
    method Dispatch(conn: ConnState, f: D.Frame, connId: string, now: int)
      requires Valid() && IsConn(conn) && connId == OfNat(conn.sock.number)
      modifies this`heap, this`deaths, this`mcpClientIdBySock, registry, heap, Socks(conns), notifications, persistence, conn
      ensures Valid() && IsConn(conn)
      ensures forall s | s in heap :: s in old(heap) || fresh(s)
      ensures View() == D.Step(old(View()), D.Received(conn.sock.number, f, now))
    {
      hide Valid, D.Dispatch;
      BoundTo(conn);
      if conn.role == D.Unknown {
        FirstFrame(conn, f, connId, now);
      } else {
        LaterFrame(conn, f, now);
      }
    }

    /** The data handler: what the bytes decode to is dispatched frame by frame; a decode error drops the connection. */
    method OnData(conn: ConnState, decoder: F.Decoder<D.Frame>, chunk: seq<byte>, connId: string, now: int)
      requires Valid() && IsConn(conn) && connId == OfNat(conn.sock.number)
      requires decoder.Valid() && decoder.caps == F.DEFAULT_CAPS
      modifies decoder
      modifies this`heap, this`deaths, this`mcpClientIdBySock, registry, (set s | s in heap), Socks(conns), notifications, persistence, conn
      ensures Valid() && IsConn(conn) && decoder.Valid()
      ensures var kept := W.Decoding(old(decoder.Buffered()), old(decoder.framesEmitted));
              View() == D.Run(old(View()), W.Events(decoder.parse, conn.sock.number, kept, [W.Arrival(chunk, now)]))
    {
      hide Valid, D.Step;
      ghost var kept := W.Decoding(decoder.Buffered(), decoder.framesEmitted);
      ghost var p := F.Parse(decoder.parse, F.DEFAULT_CAPS, kept.buffered + chunk, kept.emitted);
      W.OneArrival(decoder.parse, conn.sock.number, kept, W.Arrival(chunk, now));
      ErrorRun(View(), conn.sock.number);
      Footprints(conn);
      hide F.Parse, W.Events, W.FrameEvents, View, OfNat, D.Run;
      var r := decoder.Push(chunk);
      match r {
        case Failure(e) => OnDecodeError(conn);
        case Success(frames) =>
          DispatchAll(conn, frames, connId, now);
      }
    }

    lemma ErrorRun(st: D.State, n: nat)
      ensures D.Run(st, [D.DecodeError(n)]) == D.Step(st, D.DecodeError(n))
    {
      hide D.Step;
      assert [D.DecodeError(n)][..0] == [];
    }

    method DispatchAll(conn: ConnState, frames: seq<D.Frame>, connId: string, now: int)
      requires Valid() && IsConn(conn) && connId == OfNat(conn.sock.number)
      modifies this`heap, this`deaths, this`mcpClientIdBySock, registry, (set s | s in heap), Socks(conns), notifications, persistence, conn
      ensures Valid() && IsConn(conn)
      ensures View() == D.Run(old(View()), W.FrameEvents(conn.sock.number, frames, now))
    {
      hide Valid, View, D.Step, OfNat;
      var n := conn.sock.number;
      for i := 0 to |frames|
        invariant Valid() && IsConn(conn)
        invariant forall s | s in heap :: s in old(heap) || fresh(s)
        invariant View() == D.Run(old(View()), W.FrameEvents(n, frames[..i], now))
      {
        W.OneMoreFrame(old(View()), n, frames, i, now);
        Dispatch(conn, frames[i], connId, now);
      }
      assert frames[..|frames|] == frames;
    }

    method DrainFor(clientId: string) returns (events: seq<N.Note>)
      requires Valid()
      modifies notifications
      ensures Valid() && events == N.Get(old(notifications.queues), clientId)
      ensures View() == old(View()).(notif := N.Drained(old(notifications.View()), clientId))
    {
      hide N.Drained;
      events := notifications.Drain(clientId);
    }

    // ---------- timers ----------

    /** pidPoll; `gone` are the sessions whose probe fails. */
    method PidPoll(gone: set<S.Session>, now: int)
      requires Valid() && forall s | s in gone :: IsSession(s)
      modifies this`deaths, heap, Socks(conns), notifications, persistence
      ensures Valid()
      ensures View() == D.Step(old(View()), D.PidPoll(set s | s in gone :: s.handle, now))
    {
      ghost var handles := set s | s in gone :: s.handle;
      ghost var before := View();
      PollStart(before, handles, now);
      assert before.reg == Handles(registry.sessions);
      hide Valid, View, IsSession, Socks, D.PidPollFirst, D.Step;
      for i := 0 to |registry.sessions|
        invariant Valid() && View() == D.PidPollFirst(before, i, handles, now)
        invariant forall s | s in gone :: IsSession(s)
      {
        PollEntry(before, i, gone, handles, now);
      }
    }

    method PollEntry(ghost before: D.State, i: nat, gone: set<S.Session>, ghost handles: set<nat>, now: int)
      requires Valid() && i < |registry.sessions| && before.reg == Handles(registry.sessions)
      requires (forall s | s in gone :: IsSession(s)) && handles == set s | s in gone :: s.handle
      requires View() == D.PidPollFirst(before, i, handles, now)
      modifies this`deaths, heap, Socks(conns), notifications, persistence
      ensures Valid() && View() == D.PidPollFirst(before, i + 1, handles, now)
    {
      PollFacts(registry.sessions[i], gone, handles);
      hide Valid, View, D.MarkDead, D.PidPollFirst, D.Step, D.At;
      PollOne(registry.sessions[i], gone, handles, now);
      D.PidPollNext(before, i + 1, handles, now);
    }

    lemma PollStart(st: D.State, gone: set<nat>, now: int)
      ensures D.PidPollFirst(st, 0, gone, now) == st
      ensures D.Step(st, D.PidPoll(gone, now)) == D.PidPollFirst(st, |st.reg|, gone, now)
    {
    }

    method PollOne(s: S.Session, gone: set<S.Session>, ghost handles: set<nat>, now: int)
      requires Valid() && IsSession(s) && (s in gone <==> s.handle in handles)
      modifies this`deaths, notifications, persistence, s, s.pipeClient
      ensures Valid()
      ensures View() == if D.At(old(View()).heap, s.handle).pid <= 0 || s.handle in handles
                        then D.MarkDead(old(View()), s.handle, PidGone, now) else old(View())
    {
      assert View().heap[s.handle] == s.View();
      hide Valid, D.MarkDead;
      if s.status != S.Alive {
        DeadStays(View(), s.handle, PidGone, now);
        return;
      }
      if s.pid <= 0 || s in gone {
        MarkDead(s, PidGone, now);
      }
    }

    lemma PollFacts(s: S.Session, gone: set<S.Session>, handles: set<nat>)
      requires Valid() && s in registry.sessions && (forall x | x in gone :: IsSession(x))
      requires handles == set x | x in gone :: x.handle
      ensures IsSession(s) && D.At(View().heap, s.handle) == s.View() && s.handle < |View().heap|
      ensures s in gone <==> s.handle in handles
      ensures s in heap && (s.pipeClient != null ==> s.pipeClient in Socks(conns))
    {
      if s.pipeClient != null {
        assert conns[s.pipeClient.number] in conns;
      }
    }

    lemma DeadStays(t: D.State, h: nat, cause: Cause, now: int)
      requires h < |t.heap| && t.heap[h].status == S.Dead
      ensures D.MarkDead(t, h, cause, now) == t
    {
    }

    method Sweep(now: int)
      requires Valid()
      modifies registry
      ensures Valid()
      ensures View() == D.Step(old(View()), D.Sweep(now))
    {
      hide D.Retained, R.Swept, R.DistinctIds;
      RegistryViews();
      SweptHandles(registry.sessions, now);
      registry.SweepDead(now);
      IdsStayDistinct();
      assert ConnViews(conns) == old(ConnViews(conns)) && SessionViews(heap) == old(SessionViews(heap));
    }

    lemma {:induction false} SweptHandles(ss: seq<S.Session>, now: int)
      requires forall i | 0 <= i < |ss| :: IsSession(ss[i])
      ensures Handles(R.Swept(ss, now)) == D.Retained(SessionViews(heap), Handles(ss), now)
      ensures forall s | s in R.Swept(ss, now) :: IsSession(s)
    {
      hide R.Expired;
      if ss != [] {
        var n := |ss| - 1;
        SweptHandles(ss[..n], now);
        assert Handles(ss)[..n] == Handles(ss[..n]);
      }
    }

    // ---------- injection ----------

    /** Session.inject, seen from the server before the death listener runs. */
    method InjectQuietly(s: S.Session, bytes: seq<byte>, probe: S.Probe, writeThrows: bool, now: int) returns (r: S.InjectResult)
      requires Valid() && IsSession(s)
      modifies s, s.pipeClient
      ensures Valid() && s.name == old(s.name)
      ensures r == S.InjectDecision(old(s.status), D.PipeOpen(old(View()), s.handle), probe, writeThrows, |bytes|)
      ensures r.frameWritten <==> S.Writes(old(s.status), old(s.pipeClient != null && !s.pipeClient.destroyed), probe, writeThrows)
      ensures r.frameWritten ==> old(s.pipeClient) != null && old(s.pipeClient).injects == old(s.pipeClient.injects) + [Base64.Encode(bytes)]
      ensures SessionViews(heap) == if r.killed then old(SessionViews(heap))[s.handle := S.Died(old(s.View()), now)]
                                    else if r.frameWritten then old(SessionViews(heap))[s.handle := old(s.View()).(lastActivityAt := now)]
                                    else old(SessionViews(heap))
      ensures ConnViews(conns) == if r.killed then D.Destroyed(old(ConnViews(conns)), old(s.View().sock)) else old(ConnViews(conns))
    {
      PipeOpenIs(s);
      hide D.PipeOpen, S.InjectDecision, S.Died;
      ghost var k := s.pipeClient;
      r := s.Inject(bytes, probe, writeThrows, now);
      assert forall i | 0 <= i < |heap| && i != s.handle :: heap[i] != s && heap[i].View() == old(heap[i].View());
      assert forall i | 0 <= i < |conns| :: conns[i].sock != k ==> conns[i].View() == old(conns[i].View());
    }

    lemma PipeOpenIs(s: S.Session)
      requires Valid() && IsSession(s)
      ensures D.PipeOpen(View(), s.handle) <==> s.pipeClient != null && !s.pipeClient.destroyed
    {
      assert View().heap[s.handle] == s.View();
    }

    /** The machine's injection, by the outcome for a payload of any length. */
    lemma InjectIs(st: D.State, h: nat, probe: S.Probe, writeThrows: bool, now: int, n: nat)
      requires h < |st.heap|
      ensures var r := S.InjectDecision(st.heap[h].status, D.PipeOpen(st, h), probe, writeThrows, n);
              && (r.killed ==> st.heap[h].status == S.Alive && !r.frameWritten)
              && D.Step(st, D.Inject(h, probe, writeThrows, now))
                 == if r.killed then D.MarkDead(st, h, PidGoneInject, now)
                    else if r.frameWritten then st.(heap := st.heap[h := st.heap[h].(lastActivityAt := now)])
                    else st
    {
    }

    method InjectInto(s: S.Session, bytes: seq<byte>, probe: S.Probe, writeThrows: bool, now: int) returns (r: S.InjectResult)
      requires Valid() && IsSession(s)
      modifies this`deaths, notifications, persistence, s, s.pipeClient
      ensures Valid()
      ensures View() == D.Step(old(View()), D.Inject(s.handle, probe, writeThrows, now))
      ensures r == S.InjectDecision(old(s.status), D.PipeOpen(old(View()), s.handle), probe, writeThrows, |bytes|)
      ensures r.frameWritten <==> S.Writes(old(s.status), old(s.pipeClient != null && !s.pipeClient.destroyed), probe, writeThrows)
      ensures r.frameWritten ==> old(s.pipeClient) != null && old(s.pipeClient).injects == old(s.pipeClient.injects) + [Base64.Encode(bytes)]
    {
      hide N.FanoutDead, P.MarkEnded, ReasonText, ExitCodeIn, D.Clients, N.DeathKind, Valid, S.Died, D.Destroyed, D.PipeOpen;
      assert old(SessionViews(heap))[s.handle] == old(s.View());
      InjectIs(View(), s.handle, probe, writeThrows, now, |bytes|);
      hide S.InjectDecision, D.Step;
      r := InjectQuietly(s, bytes, probe, writeThrows, now);
      if r.killed {
        OnSessionDeath(s, PidGoneInject, now);
      }
    }

    /** After a successful injection on behalf of an mcp connection. */
    method RegisterFollowup(conn: ConnState, s: S.Session)
      requires Valid() && conn in conns && conn.role == D.Mcp && IsSession(s)
      modifies notifications
      ensures Valid()
      ensures View() == D.Step(old(View()), D.InjectFollowup(conn.sock.number, s.handle))
    {
      hide N.Followup;
      assert ConnViews(conns)[conn.sock.number] == conn.View() && SessionViews(heap)[s.handle] == s.View();
      notifications.RegisterInjectFollowup(N.Owner(conn.clientId, s.id, s.name));
    }

    method WatcherIdle(w: nat, silentMs: int, now: int)
      requires Valid()
      modifies notifications
      ensures Valid()
      ensures View() == D.Step(old(View()), D.WatcherIdle(w, silentMs, now))
    {
      hide N.WentIdle;
      notifications.OnIdle(w, silentMs, now);
    }

    method WatcherExpires(w: nat)
      requires Valid()
      modifies notifications
      ensures Valid()
      ensures View() == D.Step(old(View()), D.WatcherExpires(w))
    {
      hide N.Expired;
      notifications.OnExpiry(w);
    }
  }

  lemma {:induction false} WithoutAt(reg: seq<nat>, k: nat)
    requires k < |reg| && forall i, j | 0 <= i < j < |reg| :: reg[i] != reg[j]
    ensures D.Without(reg, reg[k]) == reg[..k] + reg[k + 1..]
  {
    var n := |reg| - 1;
    if k == n {
      AbsentStays(reg[..n], reg[k]);
    } else {
      WithoutAt(reg[..n], k);
      assert reg[..n][..k] == reg[..k] && reg[..n][k + 1..] + [reg[n]] == reg[k + 1..];
    }
  }

  lemma {:induction false} AbsentStays(reg: seq<nat>, h: nat)
    requires h !in reg
    ensures D.Without(reg, h) == reg
  {
    if reg != [] {
      AbsentStays(reg[..|reg| - 1], h);
    }
  }
}
