/**
 Per-client event queues and background idle watchers
 (packages/bridged/src/notifications.ts). A watcher handle is a number; `live` holds the
 watchers whose interval is still running.
 */
module Notifications {
  import opened Wrappers

  datatype Kind =
    | TaskComplete(silentForMs: int)
    | SessionAdded
    | SessionDead(reason: string)
    | SessionExited(reason: string, exitCode: int)

  datatype Note = Note(seqNo: nat, ts: int, sessionId: string, name: string, kind: Kind)

  /** One enqueue: who got what, and from which watcher if it was a completion. */
  datatype Logged = Logged(client: string, note: Note, watcher: Option<nat>)

  /** What a watcher's closure has captured. */
  datatype Owner = Owner(client: string, sessionId: string, name: string)

  datatype State = State(
    queues: map<string, seq<Note>>,
    watchers: map<string, nat>,
    live: set<nat>,
    owners: seq<Owner>,
    nextId: nat,
    // histories
    since: map<string, seq<Note>>,   // per client, everything enqueued since its last drain or disconnect
    log: seq<Logged>)                // every enqueue ever

  const INITIAL := State(map[], map[], {}, [], 0, map[], [])

  const MAX_QUEUE_PER_CLIENT: nat := 100

  function Get(m: map<string, seq<Note>>, client: string): seq<Note> {
    if client in m then m[client] else []
  }

  /** The last `n`. */
  function LastOf(q: seq<Note>, n: nat): seq<Note> {
    if |q| <= n then q else q[|q| - n..]
  }

  function Key(client: string, sessionId: string): string {
    client + "\0" + sessionId
  }

  function KeyOf(o: Owner): string {
    Key(o.client, o.sessionId)
  }

  predicate StartsWith(s: string, p: string) {
    |p| <= |s| && s[..|p|] == p
  }

  // ---------- the operations ----------

  function Enqueued(s: State, client: string, note: Note, watcher: Option<nat>): State {
    s.(queues := s.queues[client := LastOf(Get(s.queues, client) + [note], MAX_QUEUE_PER_CLIENT)],
       nextId := s.nextId + 1,
       since := s.since[client := Get(s.since, client) + [note]],
       log := s.log + [Logged(client, note, watcher)])
  }

  function Drained(s: State, client: string): State {
    s.(queues := if client in s.queues then s.queues[client := []] else s.queues,
       since := s.since - {client})
  }

  function Disconnected(s: State, client: string): State {
    var gone := Owned(s.watchers, client);
    s.(queues := s.queues - {client}, watchers := s.watchers - gone,
       live := s.live - Handles(s.watchers, gone), since := s.since - {client})
  }

  /** The keys that clientDisconnected's prefix test selects. */
  function Owned(watchers: map<string, nat>, client: string): set<string> {
    set k | k in watchers && StartsWith(k, client + "\0")
  }

  lemma OwnedIs(watchers: map<string, nat>, client: string, keys: set<string>)
    requires keys <= watchers.Keys && forall k | k in watchers :: k in keys <==> StartsWith(k, client + "\0")
    ensures keys == Owned(watchers, client)
  {
  }

  function Handles(watchers: map<string, nat>, keys: set<string>): set<nat> {
    set k | k in keys && k in watchers :: watchers[k]
  }

  lemma NoHandles(watchers: map<string, nat>)
    ensures Handles(watchers, {}) == {}
  {
  }

  lemma OneMoreHandle(watchers: map<string, nat>, keys: set<string>, k: string)
    requires k in watchers
    ensures Handles(watchers, keys + {k}) == Handles(watchers, keys) + {watchers[k]}
  {
    assert k in keys + {k};
  }

  /** Stops the watcher stored under `key`, if there is one. */
  function CancelAt(s: State, key: string): State {
    if key in s.watchers then s.(live := s.live - {s.watchers[key]}, watchers := s.watchers - {key}) else s
  }

  function Followup(s: State, o: Owner): State {
    var w := |s.owners|;
    var t := CancelAt(s, KeyOf(o));
    t.(watchers := t.watchers[KeyOf(o) := w], live := t.live + {w}, owners := t.owners + [o])
  }

  /** onIdle; only a running watcher calls it. */
  function WentIdle(s: State, w: nat, silentMs: int, now: int): State {
    if w !in s.live || w >= |s.owners| then s
    else
      var o := s.owners[w];
      var t := s.(live := s.live - {w}, watchers := s.watchers - {KeyOf(o)});
      Enqueued(t, o.client, Note(t.nextId, now, o.sessionId, o.name, TaskComplete(silentMs)), Some(w))
  }

  /** A watcher that times out stops silently; its map entry stays behind. */
  function Expired(s: State, w: nat): State {
    s.(live := s.live - {w})
  }

  function DeathKind(reason: string, exitCode: Option<int>): Kind {
    if exitCode.Some? then SessionExited(reason, exitCode.value) else SessionDead(reason)
  }

  function FanoutDead(s: State, clients: seq<string>, sessionId: string, name: string, kind: Kind, now: int): State {
    if clients == [] then s
    else
      var n := |clients| - 1;
      var t := FanoutDead(s, clients[..n], sessionId, name, kind, now);
      var u := Enqueued(t, clients[n], Note(t.nextId, now, sessionId, name, kind), None);
      CancelAt(u, Key(clients[n], sessionId))
  }

  function FanoutAdded(s: State, clients: seq<string>, sessionId: string, name: string, now: int): State {
    if clients == [] then s
    else
      var n := |clients| - 1;
      var t := FanoutAdded(s, clients[..n], sessionId, name, now);
      Enqueued(t, clients[n], Note(t.nextId, now, sessionId, name, SessionAdded), None)
  }

  // ---------- keys ----------

  predicate NulFree(s: string) {
    forall i | 0 <= i < |s| :: s[i] != '\0'
  }

  lemma FirstNul(a: string, x: string, b: string, y: string)
    requires NulFree(a) && NulFree(b) && |a| < |b|
    ensures !(Key(b, y) <= Key(a, x)) && !(Key(a, x) <= Key(b, y)) && !StartsWith(Key(a, x), b + "\0")
  {
    assert Key(a, x)[|a|] == '\0' && Key(b, y)[|a|] == b[|a|] && (b + "\0")[|a|] == b[|a|];
  }

  lemma FirstNulLonger(a: string, x: string, b: string)
    requires NulFree(a) && NulFree(b) && |b| < |a|
    ensures !StartsWith(Key(a, x), b + "\0")
  {
    assert Key(a, x)[|b|] == a[|b|] && (b + "\0")[|b|] == '\0';
  }

  lemma SameLengthKeys(a: string, x: string, b: string, y: string)
    requires |a| == |b|
    ensures Key(a, x) == Key(b, y) <==> a == b && x == y
    ensures StartsWith(Key(a, x), b + "\0") <==> a == b
  {
    assert Key(a, x)[..|a|] == a && Key(b, y)[..|a|] == b && (b + "\0")[..|a|] == b;
    assert Key(a, x)[|a| + 1..] == x && Key(b, y)[|a| + 1..] == y;
    assert Key(a, x)[..|a| + 1][..|a|] == a;
    assert a == b ==> Key(a, x)[..|a| + 1] == b + "\0";
  }

  /** Without NUL in client ids, a key tells its client, and the prefix test finds exactly that client's keys. */
  lemma KeysSeparateClients(a: string, x: string, b: string, y: string)
    requires NulFree(a) && NulFree(b)
    ensures Key(a, x) == Key(b, y) <==> a == b && x == y
    ensures StartsWith(Key(a, x), b + "\0") <==> a == b
  {
    hide Key, StartsWith, NulFree;
    if |a| < |b| {
      FirstNul(a, x, b, y);
    } else if |b| < |a| {
      FirstNul(b, y, a, x);
      FirstNulLonger(a, x, b);
    } else {
      SameLengthKeys(a, x, b, y);
    }
  }

  // ---------- invariants ----------

  ghost predicate QueuesOk(queues: map<string, seq<Note>>, since: map<string, seq<Note>>) {
    forall c :: Get(queues, c) == LastOf(Get(since, c), MAX_QUEUE_PER_CLIENT)
  }

  /** Keys lead to watchers of their own; a running watcher is the one its key leads to, so there is at most one per key. */
  ghost predicate WatchersOk(watchers: map<string, nat>, live: set<nat>, owners: seq<Owner>) {
    && (forall k | k in watchers :: watchers[k] < |owners| && KeyOf(owners[watchers[k]]) == k)
    && (forall w | w in live :: w < |owners| && KeyOf(owners[w]) in watchers && watchers[KeyOf(owners[w])] == w)
  }

  ghost predicate NumbersOk(log: seq<Logged>, nextId: nat) {
    && (forall i, j | 0 <= i < j < |log| :: log[i].note.seqNo < log[j].note.seqNo)
    && (forall i | 0 <= i < |log| :: log[i].note.seqNo < nextId)
  }

  /** A completion comes from a watcher that is no longer running, for that watcher's own client and session, once. */
  ghost predicate CompletionsOk(log: seq<Logged>, live: set<nat>, owners: seq<Owner>) {
    && (forall i | 0 <= i < |log| :: log[i].watcher.Some? <==> log[i].note.kind.TaskComplete?)
    && (forall i | 0 <= i < |log| && log[i].watcher.Some? ::
          var w := log[i].watcher.value;
          && w < |owners| && w !in live
          && owners[w].client == log[i].client && owners[w].sessionId == log[i].note.sessionId)
    && (forall i, j | 0 <= i < j < |log| && log[i].watcher.Some? :: log[i].watcher != log[j].watcher)
  }

  ghost predicate Inv(s: State) {
    && QueuesOk(s.queues, s.since)
    && WatchersOk(s.watchers, s.live, s.owners)
    && NumbersOk(s.log, s.nextId)
    && CompletionsOk(s.log, s.live, s.owners)
  }

  lemma LastOfSnoc(q: seq<Note>, e: Note, n: nat)
    requires n > 0
    ensures LastOf(LastOf(q, n) + [e], n) == LastOf(q + [e], n)
  {
  }

  lemma EnqueueQueues(queues: map<string, seq<Note>>, since: map<string, seq<Note>>, client: string, note: Note)
    requires QueuesOk(queues, since)
    ensures QueuesOk(queues[client := LastOf(Get(queues, client) + [note], MAX_QUEUE_PER_CLIENT)],
                     since[client := Get(since, client) + [note]])
  {
    LastOfSnoc(Get(since, client), note, MAX_QUEUE_PER_CLIENT);
    hide LastOf;
    var q := queues[client := LastOf(Get(queues, client) + [note], MAX_QUEUE_PER_CLIENT)];
    var t := since[client := Get(since, client) + [note]];
    forall c ensures Get(q, c) == LastOf(Get(t, c), MAX_QUEUE_PER_CLIENT) {
      assert Get(queues, c) == LastOf(Get(since, c), MAX_QUEUE_PER_CLIENT);
    }
  }

  /** What a watcher may complete: itself no longer running and not heard of before. */
  ghost predicate MayLog(s: State, client: string, note: Note, watcher: Option<nat>) {
    && (watcher.Some? <==> note.kind.TaskComplete?)
    && (watcher.Some? ==>
          && watcher.value < |s.owners| && watcher.value !in s.live
          && s.owners[watcher.value].client == client && s.owners[watcher.value].sessionId == note.sessionId
          && forall i | 0 <= i < |s.log| :: s.log[i].watcher != watcher)
  }

  lemma EnqueueKeepsInv(s: State, client: string, note: Note, watcher: Option<nat>)
    requires Inv(s) && note.seqNo == s.nextId && MayLog(s, client, note, watcher)
    ensures Inv(Enqueued(s, client, note, watcher))
  {
    EnqueueQueues(s.queues, s.since, client, note);
    hide QueuesOk, WatchersOk;
  }

  lemma CancelKeepsInv(s: State, key: string)
    requires Inv(s)
    ensures Inv(CancelAt(s, key))
    ensures key !in CancelAt(s, key).watchers
    ensures key in s.watchers ==> s.watchers[key] !in CancelAt(s, key).live
  {
    hide QueuesOk, NumbersOk;
  }

  lemma FollowupKeepsInv(s: State, o: Owner)
    requires Inv(s)
    ensures Inv(Followup(s, o))
  {
    CancelKeepsInv(s, KeyOf(o));
    hide QueuesOk, NumbersOk, KeyOf;
  }

  lemma StoppedKeepsInv(s: State, w: nat)
    requires Inv(s) && w in s.live && w < |s.owners|
    ensures Inv(s.(live := s.live - {w}, watchers := s.watchers - {KeyOf(s.owners[w])}))
  {
    hide QueuesOk, NumbersOk, KeyOf;
  }

  lemma WentIdleKeepsInv(s: State, w: nat, silentMs: int, now: int)
    requires Inv(s)
    ensures Inv(WentIdle(s, w, silentMs, now))
  {
    if w in s.live && w < |s.owners| {
      var o := s.owners[w];
      var t := s.(live := s.live - {w}, watchers := s.watchers - {KeyOf(o)});
      StoppedKeepsInv(s, w);
      assert MayLog(t, o.client, Note(t.nextId, now, o.sessionId, o.name, TaskComplete(silentMs)), Some(w));
      hide Inv, MayLog;
      EnqueueKeepsInv(t, o.client, Note(t.nextId, now, o.sessionId, o.name, TaskComplete(silentMs)), Some(w));
    }
  }

  lemma ForgottenQueue(s: State, t: State, client: string)
    requires QueuesOk(s.queues, s.since)
    requires Get(t.queues, client) == [] && t.since == s.since - {client}
    requires forall c | c != client :: Get(t.queues, c) == Get(s.queues, c)
    ensures QueuesOk(t.queues, t.since)
  {
    forall c ensures Get(t.queues, c) == LastOf(Get(t.since, c), MAX_QUEUE_PER_CLIENT) {
      assert Get(s.queues, c) == LastOf(Get(s.since, c), MAX_QUEUE_PER_CLIENT);
    }
  }

  lemma DrainedKeepsInv(s: State, client: string)
    requires Inv(s)
    ensures Inv(Drained(s, client))
  {
    ForgottenQueue(s, Drained(s, client), client);
  }

  lemma DisconnectedKeepsInv(s: State, client: string)
    requires Inv(s)
    ensures Inv(Disconnected(s, client))
  {
    ForgottenQueue(s, Disconnected(s, client), client);
    hide QueuesOk, NumbersOk, KeyOf, StartsWith;
  }

  lemma ExpiredKeepsInv(s: State, w: nat)
    requires Inv(s)
    ensures Inv(Expired(s, w))
  {
    hide QueuesOk, NumbersOk, KeyOf;
  }

  lemma {:induction false} FanoutDeadKeepsInv(s: State, clients: seq<string>, sessionId: string, name: string, kind: Kind, now: int)
    requires Inv(s) && !kind.TaskComplete?
    ensures Inv(FanoutDead(s, clients, sessionId, name, kind, now))
  {
    if clients != [] {
      hide Inv;
      var n := |clients| - 1;
      FanoutDeadKeepsInv(s, clients[..n], sessionId, name, kind, now);
      var t := FanoutDead(s, clients[..n], sessionId, name, kind, now);
      var note := Note(t.nextId, now, sessionId, name, kind);
      EnqueueKeepsInv(t, clients[n], note, None);
      CancelKeepsInv(Enqueued(t, clients[n], note, None), Key(clients[n], sessionId));
    }
  }

  lemma {:induction false} FanoutAddedKeepsInv(s: State, clients: seq<string>, sessionId: string, name: string, now: int)
    requires Inv(s)
    ensures Inv(FanoutAdded(s, clients, sessionId, name, now))
  {
    if clients != [] {
      hide Inv;
      var n := |clients| - 1;
      FanoutAddedKeepsInv(s, clients[..n], sessionId, name, now);
      var t := FanoutAdded(s, clients[..n], sessionId, name, now);
      EnqueueKeepsInv(t, clients[n], Note(t.nextId, now, sessionId, name, SessionAdded), None);
    }
  }

  // ---------- runs ----------

  datatype Event =
    | Died(clients: seq<string>, sessionId: string, name: string, reason: string, exitCode: Option<int>, now: int)
    | Added(clients: seq<string>, sessionId: string, name: string, now: int)
    | Inject(owner: Owner)
    | Idle(watcher: nat, silentMs: int, now: int)
    | Expires(watcher: nat)
    | Drain(client: string)
    | Disconnect(client: string)

  function Step(s: State, e: Event): State {
    match e
    case Died(cs, id, name, reason, code, now) => FanoutDead(s, cs, id, name, DeathKind(reason, code), now)
    case Added(cs, id, name, now) => FanoutAdded(s, cs, id, name, now)
    case Inject(o) => Followup(s, o)
    case Idle(w, ms, now) => WentIdle(s, w, ms, now)
    case Expires(w) => Expired(s, w)
    case Drain(c) => Drained(s, c)
    case Disconnect(c) => Disconnected(s, c)
  }

  function Run(s: State, es: seq<Event>): State {
    if es == [] then s else Step(Run(s, es[..|es| - 1]), es[|es| - 1])
  }

  lemma StepKeepsInv(s: State, e: Event)
    requires Inv(s)
    ensures Inv(Step(s, e))
  {
    hide Inv;
    match e {
      case Died(cs, id, name, reason, code, now) => FanoutDeadKeepsInv(s, cs, id, name, DeathKind(reason, code), now);
      case Added(cs, id, name, now) => FanoutAddedKeepsInv(s, cs, id, name, now);
      case Inject(o) => FollowupKeepsInv(s, o);
      case Idle(w, ms, now) => WentIdleKeepsInv(s, w, ms, now);
      case Expires(w) => ExpiredKeepsInv(s, w);
      case Drain(c) => DrainedKeepsInv(s, c);
      case Disconnect(c) => DisconnectedKeepsInv(s, c);
    }
  }

  lemma {:induction false} RunKeepsInv(s: State, es: seq<Event>)
    requires Inv(s)
    ensures Inv(Run(s, es))
  {
    if es != [] {
      hide Inv, Step;
      RunKeepsInv(s, es[..|es| - 1]);
      StepKeepsInv(Run(s, es[..|es| - 1]), es[|es| - 1]);
    }
  }

  ghost predicate Silent(s: State, t: State, w: nat) {
    && w < |t.owners| && w !in t.live
    && s.log <= t.log
    && forall i | |s.log| <= i < |t.log| :: t.log[i].watcher != Some(w)
  }

  lemma {:induction false} FanoutsAreSilent(s: State, clients: seq<string>, sessionId: string, name: string, kind: Kind, now: int, w: nat)
    requires w < |s.owners| && w !in s.live
    ensures Silent(s, FanoutDead(s, clients, sessionId, name, kind, now), w)
    ensures Silent(s, FanoutAdded(s, clients, sessionId, name, now), w)
  {
    if clients != [] {
      FanoutsAreSilent(s, clients[..|clients| - 1], sessionId, name, kind, now, w);
    }
  }

  /** A watcher that has been superseded, cancelled or has expired never enqueues anything again. */
  lemma {:induction false} StoppedWatcherStaysSilent(s: State, es: seq<Event>, w: nat)
    requires w < |s.owners| && w !in s.live
    ensures Silent(s, Run(s, es), w)
  {
    if es != [] {
      var t, e := Run(s, es[..|es| - 1]), es[|es| - 1];
      StoppedWatcherStaysSilent(s, es[..|es| - 1], w);
      match e {
        case Died(cs, id, name, reason, code, now) =>
          FanoutsAreSilent(t, cs, id, name, DeathKind(reason, code), now, w);
        case Added(cs, id, name, now) => FanoutsAreSilent(t, cs, id, name, SessionAdded, now, w);
        case _ =>
      }
    }
  }

  /**
   An inject starts a watcher: the new one runs for its client and session and is stored under
   their key; every other watcher goes on or stays stopped, except the one under that key.
   */
  lemma FollowupStarts(s: State, o: Owner)
    requires Inv(s)
    ensures var t, w := Followup(s, o), |s.owners|;
            && t.owners == s.owners + [o] && w in t.live
            && Key(o.client, o.sessionId) in t.watchers && t.watchers[Key(o.client, o.sessionId)] == w
            && (forall v | v != w :: v in t.live <==> v in s.live && Key(s.owners[v].client, s.owners[v].sessionId) != Key(o.client, o.sessionId))
            && (forall k | k != Key(o.client, o.sessionId) :: (k in t.watchers <==> k in s.watchers) && (k in s.watchers ==> t.watchers[k] == s.watchers[k]))
            && t.queues == s.queues && t.log == s.log && t.since == s.since && t.nextId == s.nextId
  {
    hide Key, QueuesOk, NumbersOk, CompletionsOk;
  }

  /** The events that stop the running watcher `w` of owner `o`: its own verdict, a new inject, its client's disconnect, its session's death. */
  ghost predicate Stops(e: Event, w: nat, o: Owner) {
    match e
    case Died(cs, id, name, reason, code, now) => exists i :: 0 <= i < |cs| && Key(cs[i], id) == KeyOf(o)
    case Added(cs, id, name, now) => false
    case Inject(p) => KeyOf(p) == KeyOf(o)
    case Idle(v, ms, now) => v == w
    case Expires(v) => v == w
    case Drain(c) => false
    case Disconnect(c) => StartsWith(KeyOf(o), c + "\0")
  }

  lemma {:induction false} FanoutStopsExactly(s: State, clients: seq<string>, sessionId: string, name: string, kind: Kind, now: int, w: nat)
    requires Inv(s) && w in s.live && !kind.TaskComplete?
    ensures var t := FanoutDead(s, clients, sessionId, name, kind, now);
            && Inv(t) && t.owners == s.owners && w < |s.owners|
            && (w in t.live <==> forall i | 0 <= i < |clients| :: Key(clients[i], sessionId) != KeyOf(s.owners[w]))
  {
    hide Inv, Enqueued, CancelAt, Key, KeyOf;
    OwnerExists(s, w);
    if clients != [] {
      var n := |clients| - 1;
      FanoutStopsExactly(s, clients[..n], sessionId, name, kind, now, w);
      var t := FanoutDead(s, clients[..n], sessionId, name, kind, now);
      var note := Note(t.nextId, now, sessionId, name, kind);
      EnqueueKeepsInv(t, clients[n], note, None);
      EnqueueStopsNothing(t, clients[n], note);
      CancelKeepsInv(Enqueued(t, clients[n], note, None), Key(clients[n], sessionId));
      CancelStops(Enqueued(t, clients[n], note, None), Key(clients[n], sessionId), w);
    }
  }

  lemma EnqueueStopsNothing(s: State, client: string, note: Note)
    ensures var t := Enqueued(s, client, note, None); t.live == s.live && t.owners == s.owners && t.watchers == s.watchers
  {
  }

  lemma CancelStops(s: State, key: string, w: nat)
    requires Inv(s)
    ensures CancelAt(s, key).owners == s.owners
    ensures w in CancelAt(s, key).live <==> w in s.live && KeyOf(s.owners[w]) != key
  {
    hide QueuesOk, NumbersOk, CompletionsOk, KeyOf;
  }

  lemma {:induction false} AddedStopsNothing(s: State, clients: seq<string>, sessionId: string, name: string, now: int)
    ensures var t := FanoutAdded(s, clients, sessionId, name, now);
            t.live == s.live && t.owners == s.owners && t.watchers == s.watchers
  {
    if clients != [] {
      AddedStopsNothing(s, clients[..|clients| - 1], sessionId, name, now);
    }
  }

  lemma DisconnectStops(s: State, client: string, w: nat)
    requires Inv(s) && w in s.live
    ensures Disconnected(s, client).owners == s.owners && client !in Disconnected(s, client).queues
    ensures w in Disconnected(s, client).live <==> !StartsWith(KeyOf(s.owners[w]), client + "\0")
  {
    hide QueuesOk, NumbersOk, CompletionsOk, KeyOf, StartsWith;
    var gone := Owned(s.watchers, client);
    if StartsWith(KeyOf(s.owners[w]), client + "\0") {
      assert KeyOf(s.owners[w]) in gone;
    }
  }

  /** A client that goes leaves no queue behind; nobody else's queue changes. */
  lemma DisconnectForgets(s: State, client: string)
    ensures var t := Disconnected(s, client);
            && client !in t.queues && Get(t.since, client) == []
            && (forall c | c != client :: Get(t.queues, c) == Get(s.queues, c) && Get(t.since, c) == Get(s.since, c))
            && t.log == s.log && t.owners == s.owners && t.nextId == s.nextId
  {
    hide Owned, Handles;
  }

  /** A verdict takes the running watcher off its key, and only that; a timeout leaves the key behind. */
  lemma VerdictForgets(s: State, w: nat, silentMs: int, now: int)
    requires Inv(s) && w in s.live
    ensures w < |s.owners|
    ensures var t, key := WentIdle(s, w, silentMs, now), Key(s.owners[w].client, s.owners[w].sessionId);
            && key !in t.watchers && w !in t.live
            && (forall k | k != key :: (k in t.watchers <==> k in s.watchers) && (k in s.watchers ==> t.watchers[k] == s.watchers[k]))
    ensures Expired(s, w).watchers == s.watchers && w !in Expired(s, w).live
  {
    hide Key, QueuesOk, NumbersOk, CompletionsOk;
  }

  /** A running watcher stops exactly at those events. */
  lemma StepStopsExactly(s: State, e: Event, w: nat)
    requires Inv(s) && w in s.live
    ensures w < |s.owners| && |s.owners| <= |Step(s, e).owners| && Step(s, e).owners[w] == s.owners[w]
    ensures w in Step(s, e).live <==> !Stops(e, w, s.owners[w])
  {
    OwnerExists(s, w);
    hide Inv, FanoutDead, FanoutAdded, Disconnected, Followup, StartsWith;
    match e {
      case Died(cs, id, name, reason, code, now) => FanoutStopsExactly(s, cs, id, name, DeathKind(reason, code), now, w);
      case Added(cs, id, name, now) => AddedStopsNothing(s, cs, id, name, now);
      case Inject(o) => FollowupStarts(s, o);
      case Idle(v, ms, now) =>
      case Expires(v) =>
      case Drain(c) =>
      case Disconnect(c) => DisconnectStops(s, c, w);
    }
  }

  lemma OwnerExists(s: State, w: nat)
    requires Inv(s) && w in s.live
    ensures w < |s.owners|
  {
  }

  ghost predicate NoneStops(es: seq<Event>, w: nat, o: Owner) {
    forall i | 0 <= i < |es| :: !Stops(es[i], w, o)
  }

  /** It runs as long as none of them happens. */
  lemma {:induction false} RunsUntilStopped(s: State, es: seq<Event>, w: nat)
    requires Inv(s) && w in s.live && w < |s.owners| && NoneStops(es, w, s.owners[w])
    ensures w in Run(s, es).live && w < |Run(s, es).owners| && Run(s, es).owners[w] == s.owners[w]
  {
    if es != [] {
      hide Inv, Step, Stops;
      var front := es[..|es| - 1];
      assert forall i | 0 <= i < |front| :: front[i] == es[i];
      RunsUntilStopped(s, front, w);
      RunKeepsInv(s, front);
      StepStopsExactly(Run(s, front), es[|es| - 1], w);
    }
  }

  /** A second inject by the same client to the same session stops the first watcher; the new one runs. */
  lemma ReinjectSupersedes(s: State, o: Owner, w: nat)
    requires Inv(s) && w in s.live && KeyOf(s.owners[w]) == KeyOf(o)
    ensures w !in Followup(s, o).live && w < |Followup(s, o).owners| && |s.owners| in Followup(s, o).live
  {
  }

  /** At most one watcher runs per client and session. */
  lemma OneWatcherPerSession(s: State, v: nat, w: nat)
    requires Inv(s) && v in s.live && w in s.live && v != w
    ensures KeyOf(s.owners[v]) != KeyOf(s.owners[w])
  {
  }

  /** A disconnect stops all of the client's watchers and nobody else's. */
  lemma DisconnectStopsExactly(s: State, client: string, w: nat)
    requires Inv(s) && w in s.live
    requires NulFree(client) && NulFree(s.owners[w].client)
    ensures w in Disconnected(s, client).live <==> s.owners[w].client != client
  {
    KeysSeparateClients(s.owners[w].client, s.owners[w].sessionId, client, "");
    hide Key, StartsWith, NulFree;
    var gone := Owned(s.watchers, client);
    if s.owners[w].client == client {
      assert KeyOf(s.owners[w]) in gone;
    }
  }

  // ---------- what fan-outs log ----------

  function EventLog(clients: seq<string>, from: nat, sessionId: string, name: string, kind: Kind, now: int): seq<Logged> {
    seq(|clients|, i requires 0 <= i < |clients| => Logged(clients[i], Note(from + i, now, sessionId, name, kind), None))
  }

  /** One death fan-out logs exactly one event for each listed client, in order, and nothing else. */
  lemma {:induction false} FanoutLog(s: State, clients: seq<string>, sessionId: string, name: string, kind: Kind, now: int)
    ensures var t := FanoutDead(s, clients, sessionId, name, kind, now);
            t.log == s.log + EventLog(clients, s.nextId, sessionId, name, kind, now) && t.nextId == s.nextId + |clients|
  {
    if clients != [] {
      var n := |clients| - 1;
      FanoutLog(s, clients[..n], sessionId, name, kind, now);
      assert EventLog(clients, s.nextId, sessionId, name, kind, now)
          == EventLog(clients[..n], s.nextId, sessionId, name, kind, now)
             + [Logged(clients[n], Note(s.nextId + n, now, sessionId, name, kind), None)];
    }
  }

  lemma {:induction false} FanoutAddedLog(s: State, clients: seq<string>, sessionId: string, name: string, now: int)
    ensures var t := FanoutAdded(s, clients, sessionId, name, now);
            t.log == s.log + EventLog(clients, s.nextId, sessionId, name, SessionAdded, now) && t.nextId == s.nextId + |clients|
  {
    if clients != [] {
      var n := |clients| - 1;
      FanoutAddedLog(s, clients[..n], sessionId, name, now);
      assert EventLog(clients, s.nextId, sessionId, name, SessionAdded, now)
          == EventLog(clients[..n], s.nextId, sessionId, name, SessionAdded, now)
             + [Logged(clients[n], Note(s.nextId + n, now, sessionId, name, SessionAdded), None)];
    }
  }

  // ---------- a queue is what the log says ----------

  /** The events logged for one client. */
  function LoggedFor(log: seq<Logged>, client: string): seq<Note> {
    if log == [] then []
    else LoggedFor(log[..|log| - 1], client) + (if log[|log| - 1].client == client then [log[|log| - 1].note] else [])
  }

  /** From `s` to `t` the client got what the log of the meantime lists for it. */
  ghost predicate Extends(s: State, t: State, client: string) {
    s.log <= t.log && Get(t.since, client) == Get(s.since, client) + LoggedFor(t.log[|s.log|..], client)
  }

  lemma {:induction false} LoggedForAppend(a: seq<Logged>, b: seq<Logged>, client: string)
    ensures LoggedFor(a + b, client) == LoggedFor(a, client) + LoggedFor(b, client)
  {
    if b == [] {
      assert a + b == a;
    } else {
      LoggedForAppend(a, b[..|b| - 1], client);
      assert (a + b)[..|a + b| - 1] == a + b[..|b| - 1];
    }
  }

  lemma ExtendsTransitive(r: State, s: State, t: State, client: string)
    requires Extends(r, s, client) && Extends(s, t, client)
    ensures Extends(r, t, client)
  {
    LoggedForAppend(s.log[|r.log|..], t.log[|s.log|..], client);
    assert t.log[|r.log|..] == s.log[|r.log|..] + t.log[|s.log|..];
  }

  lemma EnqueueExtends(s: State, to: string, note: Note, watcher: Option<nat>, client: string)
    ensures Extends(s, Enqueued(s, to, note, watcher), client)
  {
    var t := Enqueued(s, to, note, watcher);
    var l := t.log[|s.log|..];
    assert l == [Logged(to, note, watcher)];
    assert l[..0] == [];
    assert LoggedFor(l[..0], client) == [];
  }

  lemma UnloggedExtends(s: State, t: State, client: string)
    requires t.log == s.log && Get(t.since, client) == Get(s.since, client)
    ensures Extends(s, t, client)
  {
    assert t.log[|s.log|..] == [];
  }

  lemma {:induction false} FanoutsExtend(s: State, clients: seq<string>, sessionId: string, name: string, kind: Kind, now: int, client: string)
    ensures Extends(s, FanoutDead(s, clients, sessionId, name, kind, now), client)
    ensures Extends(s, FanoutAdded(s, clients, sessionId, name, now), client)
  {
    if clients == [] {
      UnloggedExtends(s, s, client);
    } else {
      hide Extends;
      var n := |clients| - 1;
      FanoutsExtend(s, clients[..n], sessionId, name, kind, now, client);
      var t, u := FanoutDead(s, clients[..n], sessionId, name, kind, now), FanoutAdded(s, clients[..n], sessionId, name, now);
      var note, added := Note(t.nextId, now, sessionId, name, kind), Note(u.nextId, now, sessionId, name, SessionAdded);
      var v := Enqueued(t, clients[n], note, None);
      EnqueueExtends(t, clients[n], note, None, client);
      EnqueueExtends(u, clients[n], added, None, client);
      UnloggedExtends(v, CancelAt(v, Key(clients[n], sessionId)), client);
      ExtendsTransitive(s, u, Enqueued(u, clients[n], added, None), client);
      ExtendsTransitive(s, t, v, client);
      ExtendsTransitive(s, v, CancelAt(v, Key(clients[n], sessionId)), client);
    }
  }

  predicate Empties(e: Event, client: string) {
    (e.Drain? || e.Disconnect?) && e.client == client
  }

  lemma StepExtends(s: State, e: Event, client: string)
    requires !Empties(e, client)
    ensures Extends(s, Step(s, e), client)
  {
    hide Extends;
    match e {
      case Died(cs, id, name, reason, code, now) => FanoutsExtend(s, cs, id, name, DeathKind(reason, code), now, client);
      case Added(cs, id, name, now) => FanoutsExtend(s, cs, id, name, SessionAdded, now, client);
      case Idle(w, ms, now) =>
        if w !in s.live || w >= |s.owners| {
          UnloggedExtends(s, s, client);
        } else {
          var o := s.owners[w];
          var t := s.(live := s.live - {w}, watchers := s.watchers - {KeyOf(o)});
          UnloggedExtends(s, t, client);
          EnqueueExtends(t, o.client, Note(t.nextId, now, o.sessionId, o.name, TaskComplete(ms)), Some(w), client);
          ExtendsTransitive(s, t, Step(s, e), client);
        }
      case _ => UnloggedExtends(s, Step(s, e), client);
    }
  }

  lemma {:induction false} RunExtends(s: State, es: seq<Event>, client: string)
    requires forall i | 0 <= i < |es| :: !Empties(es[i], client)
    ensures Extends(s, Run(s, es), client)
  {
    if es == [] {
      UnloggedExtends(s, s, client);
    } else {
      hide Extends, Step, Empties;
      RunExtends(s, es[..|es| - 1], client);
      StepExtends(Run(s, es[..|es| - 1]), es[|es| - 1], client);
      ExtendsTransitive(s, Run(s, es[..|es| - 1]), Run(s, es), client);
    }
  }

  /**
   Whatever happens between two drains of a client, the second returns the last hundred (or
   all) of the events enqueued for it in between, in order.
   */
  lemma DrainReturnsTheTail(s: State, es: seq<Event>, client: string)
    requires Inv(s) && forall i | 0 <= i < |es| :: !Empties(es[i], client)
    ensures var t := Run(Drained(s, client), es);
            && s.log <= t.log
            && var q, due := Get(t.queues, client), LoggedFor(t.log[|s.log|..], client);
            && |q| == (if |due| < 100 then |due| else 100)
            && q == due[|due| - |q|..]
  {
    var d := Drained(s, client);
    DrainedKeepsInv(s, client);
    RunKeepsInv(d, es);
    RunExtends(d, es, client);
    hide Run, LoggedFor;
    assert Get(d.since, client) == [];
    QueueOf(Run(d, es), client);
  }

  lemma QueueOf(s: State, client: string)
    requires Inv(s)
    ensures Get(s.queues, client) == LastOf(Get(s.since, client), MAX_QUEUE_PER_CLIENT)
  {
  }

  // ---------- the class ----------

  class NotificationCenter {
    var queues: map<string, seq<Note>>
    var watchers: map<string, nat>
    var live: set<nat>
    var owners: seq<Owner>
    var nextId: nat
    ghost var since: map<string, seq<Note>>
    ghost var log: seq<Logged>

    ghost function View(): State
      reads this
    {
      State(queues, watchers, live, owners, nextId, since, log)
    }

    constructor ()
      ensures View() == INITIAL
    {
      queues, watchers, live, owners, nextId := map[], map[], {}, [], 0;
      since, log := map[], [];
    }

    method Enqueue(client: string, sessionId: string, name: string, kind: Kind, now: int, ghost watcher: Option<nat>)
      modifies this
      ensures View() == Enqueued(old(View()), client, Note(old(nextId), now, sessionId, name, kind), watcher)
    {
      var full := Note(nextId, now, sessionId, name, kind);
      nextId := nextId + 1;
      var q := if client in queues then queues[client] else [];
      q := q + [full];
      if |q| > MAX_QUEUE_PER_CLIENT {
        q := q[|q| - MAX_QUEUE_PER_CLIENT..];
      }
      queues := queues[client := q];
      since := since[client := Get(since, client) + [full]];
      log := log + [Logged(client, full, watcher)];
    }

    method Drain(client: string) returns (out: seq<Note>)
      modifies this
      ensures out == Get(old(queues), client) && View() == Drained(old(View()), client)
    {
      since := since - {client};
      if client !in queues || queues[client] == [] {
        return [];
      }
      out := queues[client];
      queues := queues[client := []];
    }

    method ClientDisconnected(client: string)
      modifies this
      ensures View() == Disconnected(old(View()), client)
    {
      queues := queues - {client};
      since := since - {client};
      CancelOwned(client);
    }

    method CancelOwned(client: string)
      modifies this`watchers, this`live
      ensures var gone := Owned(old(watchers), client);
              watchers == old(watchers) - gone && live == old(live) - Handles(old(watchers), gone)
    {
      hide StartsWith, Handles, Owned;
      var w0, keys := watchers, watchers.Keys;
      ghost var gone: set<string> := {};
      NoHandles(w0);
      while keys != {}
        invariant keys <= w0.Keys && gone !! keys && gone <= w0.Keys
        invariant forall k | k in w0 :: k in gone <==> k !in keys && StartsWith(k, client + "\0")
        invariant watchers == w0 - gone
        invariant live == old(live) - Handles(w0, gone)
        decreases |keys|
      {
        var k :| k in keys;
        keys := keys - {k};
        if StartsWith(k, client + "\0") {
          OneMoreHandle(w0, gone, k);
          assert watchers[k] == w0[k];
          Cancel(watchers[k]);
          watchers := watchers - {k};
          gone := gone + {k};
        }
      }
      OwnedIs(w0, client, gone);
    }

    /** The handle's cancel(). */
    method Cancel(w: nat)
      modifies this`live
      ensures live == old(live) - {w}
    {
      live := live - {w};
    }

    method RegisterInjectFollowup(o: Owner)
      modifies this
      ensures View() == Followup(old(View()), o)
    {
      var key := o.client + "\0" + o.sessionId;
      if key in watchers {
        Cancel(watchers[key]);
      }
      var handle := |owners|;
      owners := owners + [o];
      live := live + {handle};
      watchers := watchers[key := handle];
    }

    /** A watcher's interval found its session idle. */
    method OnIdle(w: nat, silentMs: int, now: int)
      modifies this
      ensures View() == WentIdle(old(View()), w, silentMs, now)
    {
      if w !in live || w >= |owners| {
        return;
      }
      Cancel(w);
      var o := owners[w];
      watchers := watchers - {KeyOf(o)};
      Enqueue(o.client, o.sessionId, o.name, TaskComplete(silentMs), now, Some(w));
    }

    /** A watcher's interval ran past its timeout. */
    method OnExpiry(w: nat)
      modifies this
      ensures View() == Expired(old(View()), w)
    {
      live := live - {w};
    }

    method FanoutSessionDead(clients: seq<string>, sessionId: string, name: string, reason: string, exitCode: Option<int>, now: int)
      modifies this
      ensures View() == FanoutDead(old(View()), clients, sessionId, name, DeathKind(reason, exitCode), now)
    {
      var kind := if exitCode.Some? then SessionExited(reason, exitCode.value) else SessionDead(reason);
      for i := 0 to |clients|
        invariant View() == FanoutDead(old(View()), clients[..i], sessionId, name, kind, now)
      {
        Enqueue(clients[i], sessionId, name, kind, now, None);
        var key := clients[i] + "\0" + sessionId;
        if key in watchers {
          Cancel(watchers[key]);
          watchers := watchers - {key};
        }
        assert clients[..i + 1][..i] == clients[..i];
      }
      assert clients[..|clients|] == clients;
    }

    method FanoutSessionAdded(clients: seq<string>, sessionId: string, name: string, now: int)
      modifies this
      ensures View() == FanoutAdded(old(View()), clients, sessionId, name, now)
    {
      for i := 0 to |clients|
        invariant View() == FanoutAdded(old(View()), clients[..i], sessionId, name, now)
      {
        Enqueue(clients[i], sessionId, name, SessionAdded, now, None);
        assert clients[..i + 1][..i] == clients[..i];
      }
      assert clients[..|clients|] == clients;
    }
  }
}
