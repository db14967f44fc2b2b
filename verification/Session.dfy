/** One bridged CLI under the daemon's care (packages/bridged/src/session.ts). */
module Session {
  import opened Wrappers
  import opened Constants
  import Base64
  import RB = RingBuffer

  datatype Status = Alive | Dead

  /** process.kill(pid, 0): success, EPERM, or any other error. */
  datatype Probe = Exists | NoPermission | Gone

  predicate ProcessAlive(p: Probe) {
    !p.Gone?
  }

  /** The fields of a Session object; `name` is its label (a reserved word here), `sock` is the number of the socket in `pipeClient`. */
  datatype SessionData = SessionData(
    id: string, name: string, pid: int, startedAt: int,
    sock: Option<nat>, status: Status, diedAt: Option<int>,
    raw: seq<RB.Chunk>, lastOutputAt: int, lastUserInputAt: int, lastActivityAt: int,
    missedPongs: nat)

  function NewData(id: string, name: string, pid: int, startedAt: int, sock: nat, now: int): SessionData {
    SessionData(id, name, pid, startedAt, Some(sock), Alive, None, [],
                now, startedAt - DEFAULT_WAIT_FOR_USER_IDLE_MS - 1, now, 0)
  }

  function WithStdout(s: SessionData, bytes: seq<byte>, now: int): SessionData {
    s.(raw := RB.Evict(RING_BUFFER_MAX_BYTES, s.raw + RB.Stored(RING_BUFFER_MAX_BYTES, RB.Chunk(now, bytes))),
       lastOutputAt := now, lastActivityAt := now)
  }

  /** A reported time is used unless it is not positive or more than a second ahead of the daemon's clock. */
  function InputTime(at: int, now: int): int {
    if at > 0 && at <= now + 1000 then at else now
  }

  function WithUserInput(s: SessionData, at: int, now: int): SessionData {
    s.(lastUserInputAt := InputTime(at, now), lastActivityAt := InputTime(at, now))
  }

  /** The one-way transition of markDead; dead sessions stay as they are. */
  function Died(s: SessionData, now: int): SessionData {
    if s.status == Dead then s else s.(status := Dead, diedAt := Some(now), sock := None)
  }

  /** How Session.inject ends: the returned byte count, whether a frame was written, whether the probe killed the session. */
  datatype InjectResult = InjectResult(written: nat, frameWritten: bool, killed: bool)

  function InjectDecision(status: Status, pipeOpen: bool, probe: Probe, writeThrows: bool, n: nat): InjectResult {
    if status == Dead || !pipeOpen then InjectResult(0, false, false)
    else if !ProcessAlive(probe) then InjectResult(0, false, true)
    else if writeThrows then InjectResult(0, false, false)
    else InjectResult(n, true, false)
  }

  /** A frame goes into the pipe of a living session whose process the probe sees; only then may the write still throw. */
  predicate Writes(status: Status, pipeOpen: bool, probe: Probe, writeThrows: bool) {
    status == Alive && pipeOpen && (probe == Exists || probe == NoPermission) && !writeThrows
  }

  /** What injecting decides: the frame, the count and the death. The probe comes before the write. */
  lemma InjectDecides(status: Status, pipeOpen: bool, probe: Probe, writeThrows: bool, n: nat)
    ensures var r := InjectDecision(status, pipeOpen, probe, writeThrows, n);
            && (r.frameWritten <==> Writes(status, pipeOpen, probe, writeThrows))
            && (r.killed <==> status == Alive && pipeOpen && probe == Gone)
            && r.written == if r.frameWritten then n else 0
  {
  }

  /** A cb connection's socket as the session sees it. */
  class Socket {
    const number: nat
    var destroyed: bool
    /** The payloads of the inject frames written to it. */
    var injects: seq<string>

    constructor (number: nat)
      ensures this.number == number && !destroyed && injects == []
    {
      this.number, destroyed, injects := number, false, [];
    }

    method Destroy()
      modifies this`destroyed
      ensures destroyed
    {
      destroyed := true;
    }
  }

  class Session {
    /** Which session object this is, in order of creation. */
    ghost const handle: nat
    const id: string
    const pid: int
    const startedAt: int
    var name: string
    var pipeClient: Socket?
    var status: Status
    var diedAt: Option<int>
    var raw: seq<RB.Chunk>
    var lastOutputAt: int
    var lastUserInputAt: int
    var lastActivityAt: int
    var missedPongs: nat

    ghost function View(): SessionData
      reads this
    {
      SessionData(id, name, pid, startedAt, if pipeClient == null then None else Some(pipeClient.number),
                  status, diedAt, raw, lastOutputAt, lastUserInputAt, lastActivityAt, missedPongs)
    }

    constructor (ghost handle: nat, id: string, name: string, pid: int, startedAt: int, pipeClient: Socket, now: int)
      ensures this.handle == handle && this.pipeClient == pipeClient
      ensures View() == NewData(id, name, pid, startedAt, pipeClient.number, now)
    {
      this.handle := handle;
      this.id, this.name, this.pid, this.startedAt := id, name, pid, startedAt;
      this.pipeClient := pipeClient;
      status, diedAt, raw := Alive, None, [];
      lastOutputAt := now;
      lastUserInputAt := startedAt - DEFAULT_WAIT_FOR_USER_IDLE_MS - 1;
      lastActivityAt := now;
      missedPongs := 0;
    }

    method OnStdout(bytes: seq<byte>, now: int)
      modifies this
      ensures View() == WithStdout(old(View()), bytes, now) && pipeClient == old(pipeClient)
    {
      raw := RB.Evict(RING_BUFFER_MAX_BYTES, raw + RB.Stored(RING_BUFFER_MAX_BYTES, RB.Chunk(now, bytes)));
      lastOutputAt := now;
      lastActivityAt := now;
    }

    method OnUserInput(at: int, now: int)
      modifies this
      ensures View() == WithUserInput(old(View()), at, now) && pipeClient == old(pipeClient)
    {
      lastUserInputAt := if at > 0 && at <= now + 1000 then at else now;
      lastActivityAt := lastUserInputAt;
    }

    /** `fired`: this call made the transition, so the registry's callback runs. */
    method MarkDead(now: int) returns (fired: bool)
      modifies this, pipeClient
      ensures View() == Died(old(View()), now)
      ensures fired <==> old(status) == Alive
      ensures fired && old(pipeClient) != null ==> old(pipeClient).destroyed
      ensures old(pipeClient) != null ==> old(pipeClient).injects == old(pipeClient.injects)
      ensures !fired ==> pipeClient == old(pipeClient) && (pipeClient != null ==> unchanged(pipeClient))
      ensures fired ==> pipeClient == null
    {
      if status == Dead {
        return false;
      }
      status := Dead;
      diedAt := Some(now);
      if pipeClient != null {
        pipeClient.Destroy();
        pipeClient := null;
      }
      return true;
    }

    /**
     Writes an inject frame: exactly into the open pipe of a living session whose process is
     seen, unless the write throws. The session dies exactly if its process is gone. The frame
     is the last one on the socket and carries the base64 text of the payload.
     */
    method Inject(bytes: seq<byte>, probe: Probe, writeThrows: bool, now: int) returns (r: InjectResult)
      modifies this, pipeClient
      ensures r == InjectDecision(old(status), old(pipeClient != null && !pipeClient.destroyed), probe, writeThrows, |bytes|)
      ensures var open := old(pipeClient != null && !pipeClient.destroyed);
              && (r.frameWritten <==> Writes(old(status), open, probe, writeThrows))
              && (r.killed <==> old(status) == Alive && open && probe == Gone)
              && r.written == if r.frameWritten then |bytes| else 0
      ensures r.killed ==> View() == Died(old(View()), now) && pipeClient == null
      ensures r.frameWritten ==>
                && View() == old(View()).(lastActivityAt := now)
                && pipeClient == old(pipeClient) != null
                && pipeClient.injects == old(pipeClient.injects) + [Base64.Encode(bytes)]
      ensures !r.frameWritten && !r.killed ==> View() == old(View()) && pipeClient == old(pipeClient)
      ensures !r.frameWritten && old(pipeClient) != null ==> old(pipeClient).injects == old(pipeClient.injects)
      ensures old(pipeClient) != null ==>
                old(pipeClient).destroyed == (old(pipeClient.destroyed) || r.killed)
    {
      if status == Dead {
        return InjectResult(0, false, false);
      }
      var pc := pipeClient;
      if pc == null || pc.destroyed {
        return InjectResult(0, false, false);
      }
      if !ProcessAlive(probe) {
        var _ := MarkDead(now);
        return InjectResult(0, false, true);
      }
      if writeThrows {
        return InjectResult(0, false, false);
      }
      pc.injects := pc.injects + [Base64.Encode(bytes)];
      lastActivityAt := now;
      return InjectResult(|bytes|, true, false);
    }
  }

  /** The process in the terminal receives exactly the injected bytes: cb decodes what the daemon encoded. */
  lemma InjectArrives(bytes: seq<byte>)
    ensures var text := Base64.Encode(bytes);
            && |text| % 4 == 0 && (text == "" || Base64.HasShape(text))
            && Base64.Lenient(text) == bytes
  {
    Base64.LenientInvertsEncode(bytes);
  }
}
