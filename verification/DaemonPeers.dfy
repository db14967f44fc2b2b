/** The daemon's client map over whole runs: the mcp clients connected are those accepted and not yet gone. */
module DaemonPeers {
  import opened Wrappers
  import opened Constants
  import opened Decimal
  import opened Daemon
  import opened DaemonInvariants
  import opened DaemonConns
  import opened DaemonLives
  import N = Notifications
  import P = Persistence
  import R = Registry

  /** The client id of an mcp connection: as asked, or made from the connection. */
  function ClientId(c: nat, asked: string): string {
    if asked == "" then "mcp-" + OfNat(c) else asked
  }

  /** An mcp_hello with the daemon's secret as the first frame of an open connection. */
  predicate McpAccepted(st: State, e: Event) {
    e.Received? && IsOpen(st, e.conn) && st.conns[e.conn].role == Unknown && e.frame.McpHello? && e.frame.secretOk
  }

  /** With the secret, an mcp_hello gives its connection the role and the client id and lists it; nothing else changes. */
  lemma McpHelloJoins(st: State, e: Event)
    requires McpAccepted(st, e)
    ensures var c, id := e.conn, ClientId(e.conn, e.frame.clientId);
            Step(st, e) == st.(conns := st.conns[c := st.conns[c].(role := Mcp, clientId := id)], peers := st.peers + [Peer(c, id)])
            && Clients(Step(st, e).peers) == Clients(st.peers) + [id]
  {
    hide OfNat;
  }

  /** A first frame that no role follows from: an mcp_hello or hello without the secret, a label that is not valid, or anything else. */
  predicate Rejected(st: State, e: Event) {
    && e.Received? && IsOpen(st, e.conn) && st.conns[e.conn].role == Unknown
    && match e.frame
       case McpHello(ok, id) => !ok
       case Hello(m) => !m.secretOk || !R.LabelValid(if m.name == "" then "session" else m.name)
       case _ => true
  }

  /** The events that drop a connection: a rejected first frame, a decode error, or no role when the handshake timer fires. */
  predicate Drops(st: State, e: Event) {
    || Rejected(st, e)
    || (e.DecodeError? && IsOpen(st, e.conn))
    || (e.HandshakeTimeout? && IsOpen(st, e.conn) && st.conns[e.conn].role == Unknown)
  }

  /** Dropping destroys the socket, gives no role, and changes nothing else; without that a handshake timer changes nothing at all. */
  lemma DroppingDestroys(st: State, e: Event)
    ensures Drops(st, e) ==> Step(st, e) == st.(conns := st.conns[e.conn := st.conns[e.conn].(destroyed := true)])
    ensures (e.DecodeError? || e.HandshakeTimeout?) && !Drops(st, e) ==> Step(st, e) == st
  {
    hide R.LabelValid, OfNat;
  }

  // ---------- whole runs ----------

  /** All accepted mcp_hellos of a run, in order. */
  function Joins(st: State, es: seq<Event>): seq<Peer>
    decreases |es|
  {
    if es == [] then []
    else
      var n := |es| - 1;
      Joins(st, es[..n]) + (if McpAccepted(Run(st, es[..n]), es[n]) then [Peer(es[n].conn, ClientId(es[n].conn, es[n].frame.clientId))] else [])
  }

  /** Those whose connection has not closed. */
  function StillOpen(joins: seq<Peer>, conns: seq<Conn>): seq<Peer> {
    if joins == [] then []
    else
      var p := joins[|joins| - 1];
      StillOpen(joins[..|joins| - 1], conns) + (if p.sock < |conns| && !conns[p.sock].closed then [p] else [])
  }

  lemma StillOpenSnoc(joins: seq<Peer>, p: Peer, conns: seq<Conn>)
    ensures StillOpen(joins + [p], conns) == StillOpen(joins, conns) + (if p.sock < |conns| && !conns[p.sock].closed then [p] else [])
  {
    assert (joins + [p])[..|joins|] == joins;
  }

  /** No listed connection's closing differs. */
  ghost predicate SameClosing(joins: seq<Peer>, conns: seq<Conn>, conns': seq<Conn>) {
    forall i | 0 <= i < |joins| ::
      joins[i].sock < |conns| && joins[i].sock < |conns'| && conns'[joins[i].sock].closed == conns[joins[i].sock].closed
  }

  lemma {:induction false} SameStillOpen(joins: seq<Peer>, conns: seq<Conn>, conns': seq<Conn>)
    requires SameClosing(joins, conns, conns')
    ensures StillOpen(joins, conns') == StillOpen(joins, conns)
  {
    if joins != [] {
      SameStillOpen(joins[..|joins| - 1], conns, conns');
    }
  }

  lemma {:induction false} WithoutPeerSnoc(peers: seq<Peer>, p: Peer, c: nat)
    ensures WithoutPeer(peers + [p], c) == WithoutPeer(peers, c) + (if p.sock == c then [] else [p])
  {
    if peers == [] {
      assert [p][1..] == [];
      assert [] + [p] == [p];
    } else {
      assert (peers + [p])[1..] == peers[1..] + [p];
      WithoutPeerSnoc(peers[1..], p, c);
    }
  }

  /** Closing connection `c` takes its entries out. */
  lemma {:induction false} ClosingRemoves(joins: seq<Peer>, conns: seq<Conn>, conns': seq<Conn>, c: nat)
    requires forall i | 0 <= i < |joins| ::
               joins[i].sock < |conns| && joins[i].sock < |conns'|
               && conns'[joins[i].sock].closed == (conns[joins[i].sock].closed || joins[i].sock == c)
    ensures StillOpen(joins, conns') == WithoutPeer(StillOpen(joins, conns), c)
  {
    if joins != [] {
      var front, p := joins[..|joins| - 1], joins[|joins| - 1];
      ClosingRemoves(front, conns, conns', c);
      WithoutPeerSnoc(StillOpen(front, conns), p, c);
      assert WithoutPeer(StillOpen(front, conns), c) + [] == WithoutPeer(StillOpen(front, conns), c);
      assert StillOpen(front, conns) + [] == StillOpen(front, conns);
    }
  }

  /** Every accepted connection has, or had, the mcp role. */
  ghost predicate Joined(joins: seq<Peer>, conns: seq<Conn>) {
    forall i | 0 <= i < |joins| :: joins[i].sock < |conns| && conns[joins[i].sock].role == Mcp
  }

  lemma MarkDeadKeepsPeers(st: State, h: nat, cause: Cause, now: int)
    ensures MarkDead(st, h, cause, now).peers == st.peers
  {
  }

  lemma {:induction false} PidPollKeepsPeers(st: State, n: nat, gone: set<nat>, now: int)
    requires n <= |st.reg|
    ensures PidPollFirst(st, n, gone, now).peers == st.peers
    decreases n
  {
    if n > 0 {
      PidPollNext(st, n, gone, now);
      hide MarkDead, PidPollFirst;
      PidPollKeepsPeers(st, n - 1, gone, now);
      MarkDeadKeepsPeers(PidPollFirst(st, n - 1, gone, now), st.reg[n - 1], PidGone, now);
    }
  }

  /** The close of an open mcp connection. */
  predicate McpCloses(st: State, e: Event) {
    e.Close? && IsOpen(st, e.conn) && st.conns[e.conn].role == Mcp
  }

  lemma FrameKeepsPeers(st: State, c: nat, f: Frame, now: int)
    requires IsOpen(st, c) && !McpAccepted(st, Received(c, f, now))
    ensures Dispatch(st, c, f, now).peers == st.peers
  {
    hide MarkDead, N.Drained, Purged, Prior, Accepted, Resumes, R.Resolved, P.AddOrUpdate, N.FanoutAdded, Put, RenamedAll, Base64.DecodeStrict;
    if f.Bye? && st.conns[c].session.Some? {
      MarkDeadKeepsPeers(st, st.conns[c].session.value, ByeFrame(f.exitCode), now);
    } else if f.Hello? {
      PurgedKeepsPeers(st, f.hello);
    }
  }

  lemma PurgedKeepsPeers(st: State, m: HelloMsg)
    ensures Purged(st, m).peers == st.peers
  {
  }

  lemma TickKeepsPeers(st: State, c: nat, now: int)
    requires c < |st.conns|
    ensures HeartbeatTick(st, c, now).peers == st.peers
  {
    hide MarkDead;
    if st.conns[c].session.Some? {
      var g := st.conns[c].session.value;
      MarkDeadKeepsPeers(WithSession(st, g, At(st.heap, g).(missedPongs := At(st.heap, g).missedPongs + 1)), g, HeartbeatLost, now);
    }
  }

  lemma ClosePeers(st: State, c: nat, now: int)
    requires c < |st.conns|
    ensures HandleClose(st, c, now).peers == if st.conns[c].role == Mcp then WithoutPeer(st.peers, c) else st.peers
  {
    hide MarkDead, N.Disconnected, WithoutPeer;
    if st.conns[c].session.Some? {
      var t := st.(conns := st.conns[c := st.conns[c].(heartbeat := false, destroyed := true, closed := true)]);
      MarkDeadKeepsPeers(t, st.conns[c].session.value, PipeClosed, now);
    }
  }

  lemma OthersKeepPeers(st: State, e: Event)
    requires !McpAccepted(st, e) && !McpCloses(st, e)
    ensures Step(st, e).peers == st.peers
  {
    hide McpAccepted, Dispatch, HeartbeatTick, HandleClose, PidPollFirst, MarkDead, N.Followup, N.WentIdle, Retained, PipeOpen, WithoutPeer;
    match e {
      case Received(c, f, now) => if IsOpen(st, c) { FrameKeepsPeers(st, c, f, now); }
      case Tick(c, now) => if IsOpen(st, c) { TickKeepsPeers(st, c, now); }
      case Close(c, now) => if IsOpen(st, c) { ClosePeers(st, c, now); }
      case PidPoll(gone, now) => PidPollKeepsPeers(st, |st.reg|, gone, now);
      case Inject(h, probe, throws, now) => MarkDeadKeepsPeers(st, h, PidGoneInject, now);
      case _ =>
    }
  }

  /** The client map is the accepted mcp clients that are still there. */
  ghost predicate PeersAre(t: State, joins: seq<Peer>) {
    Joined(joins, t.conns) && t.peers == StillOpen(joins, t.conns)
  }

  /** What an event other than a connection's first frame does to the connections of a list. */
  lemma JoinedAfter(st: State, e: Event, joins: seq<Peer>)
    requires Joined(joins, st.conns)
    ensures Joined(joins, Step(st, e).conns)
    ensures forall i | 0 <= i < |joins| ::
              joins[i].sock < |st.conns| && joins[i].sock < |Step(st, e).conns|
              && Step(st, e).conns[joins[i].sock].closed
                 == (st.conns[joins[i].sock].closed || (e.Close? && joins[i].sock == e.conn))
  {
    hide Step;
    forall i | 0 <= i < |joins|
      ensures joins[i].sock < |st.conns| && joins[i].sock < |Step(st, e).conns|
              && Step(st, e).conns[joins[i].sock].role == Mcp
              && Step(st, e).conns[joins[i].sock].closed
                 == (st.conns[joins[i].sock].closed || (e.Close? && joins[i].sock == e.conn))
    {
      StepKeepsConn(st, e, joins[i].sock);
    }
  }

  lemma PeersAfterJoin(st: State, e: Event, joins: seq<Peer>)
    requires PeersAre(st, joins) && McpAccepted(st, e)
    ensures PeersAre(Step(st, e), joins + [Peer(e.conn, ClientId(e.conn, e.frame.clientId))])
  {
    var p := Peer(e.conn, ClientId(e.conn, e.frame.clientId));
    McpHelloJoins(st, e);
    hide Step, ClientId;
    var t := Step(st, e);
    assert SameClosing(joins, st.conns, t.conns);
    SameStillOpen(joins, st.conns, t.conns);
    StillOpenSnoc(joins, p, t.conns);
    hide StillOpen;
    forall i | 0 <= i < |joins + [p]| ensures (joins + [p])[i].sock < |t.conns| && t.conns[(joins + [p])[i].sock].role == Mcp {
      assert i < |joins| ==> (joins + [p])[i] == joins[i];
    }
  }

  lemma PeersAfterOther(st: State, e: Event, joins: seq<Peer>)
    requires PeersAre(st, joins) && !McpAccepted(st, e)
    ensures PeersAre(Step(st, e), joins)
  {
    JoinedAfter(st, e, joins);
    var t := Step(st, e);
    if McpCloses(st, e) {
      ClosePeers(st, e.conn, e.now);
      hide HandleClose, StillOpen, WithoutPeer;
      ClosingRemoves(joins, st.conns, t.conns, e.conn);
    } else {
      OthersKeepPeers(st, e);
      hide Step, StillOpen, McpAccepted;
      assert SameClosing(joins, st.conns, t.conns);
      SameStillOpen(joins, st.conns, t.conns);
    }
  }

  /**
   Over every run: the clients connected are, in order, those whose mcp_hello carried the
   secret and whose connection has not closed, each under the id it asked for.
   */
  lemma {:induction false} PeersAreTheClients(file: seq<P.Entry>, start: int, es: seq<Event>)
    ensures PeersAre(Run(Initial(file, start), es), Joins(Initial(file, start), es))
    decreases |es|
  {
    var init := Initial(file, start);
    if es == [] {
      assert StillOpen([], init.conns) == [];
    } else {
      hide Step, PeersAre, McpAccepted, ClientId, Initial;
      var front, e := es[..|es| - 1], es[|es| - 1];
      PeersAreTheClients(file, start, front);
      if McpAccepted(Run(init, front), e) {
        PeersAfterJoin(Run(init, front), e, Joins(init, front));
      } else {
        PeersAfterOther(Run(init, front), e, Joins(init, front));
        assert Joins(init, front) + [] == Joins(init, front);
      }
    }
  }
}
