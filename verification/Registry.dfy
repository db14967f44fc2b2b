/**
 The session registry (packages/bridged/src/registry.ts): a map in insertion order, label
 resolution with suffixes, and lookup by id or label. The specification functions work on
 the registered sessions' fields, oldest entry first.
 */
module Registry {
  import opened Wrappers
  import opened Constants
  import opened Session
  import Decimal

  // ---------- labels ----------

  predicate LabelChar(c: char) {
    'A' <= c <= 'Z' || 'a' <= c <= 'z' || '0' <= c <= '9' || c == '.' || c == '_' || c == '-'
  }

  /** LABEL_PATTERN */
  predicate LabelValid(l: string) {
    1 <= |l| <= 64 && forall i | 0 <= i < |l| :: LabelChar(l[i])
  }

  /** ASCII letters, digits, dot, underscore and hyphen. */
  predicate CodeAllowed(n: int) {
    n == 45 || n == 46 || n == 95 || 48 <= n <= 57 || 65 <= n <= 90 || 97 <= n <= 122
  }

  /** The pattern, by character codes: one to 64 of those. */
  lemma LabelValidIs(l: string)
    ensures LabelValid(l) <==> 0 < |l| < 65 && forall i | 0 <= i < |l| :: CodeAllowed(l[i] as int)
  {
    assert forall c: char :: LabelChar(c) <==> CodeAllowed(c as int);
  }

  /** Labels of sessions renamed after death contain a tilde; no label a client can ask for does. */
  predicate Plain(l: string) {
    '~' !in l
  }

  predicate Holds(s: SessionData, l: string) {
    s.status == Alive && s.name == l
  }

  predicate LabelTaken(ss: seq<SessionData>, l: string) {
    exists i :: 0 <= i < |ss| && Holds(ss[i], l)
  }

  /** The base itself for 1, then base-2, base-3, ... */
  function Candidate(base: string, i: nat): string {
    if i <= 1 then base else base + "-" + Decimal.OfNat(i)
  }

  const SUFFIX_LIMIT: nat := 10_000

  /** The lowest free suffix from `i` on, or None after 9999. */
  function LowestFree(ss: seq<SessionData>, base: string, i: nat): (r: Option<nat>)
    requires i <= SUFFIX_LIMIT
    ensures r.Some? ==> i <= r.value < SUFFIX_LIMIT && !LabelTaken(ss, Candidate(base, r.value))
                        && forall k | i <= k < r.value :: LabelTaken(ss, Candidate(base, k))
    ensures r == None ==> forall k | i <= k < SUFFIX_LIMIT :: LabelTaken(ss, Candidate(base, k))
    decreases SUFFIX_LIMIT - i
  {
    if i == SUFFIX_LIMIT then None
    else if !LabelTaken(ss, Candidate(base, i)) then Some(i)
    else LowestFree(ss, base, i + 1)
  }

  function Fallback(base: string, now: int): string {
    base + "-" + Decimal.OfInt(now)
  }

  function Resolved(ss: seq<SessionData>, base: string, now: int): string {
    if !LabelTaken(ss, base) then base
    else
      match LowestFree(ss, base, 2)
      case Some(i) => Candidate(base, i)
      case None => Fallback(base, now)
  }

  /** A dead session that wears the label about to be assigned gets a post-mortem one. */
  function Renamed(s: SessionData, l: string, now: int): SessionData {
    if s.status == Dead && s.name == l then
      s.(name := l + "~dead-" + Decimal.OfInt(if s.diedAt.Some? then s.diedAt.value else now))
    else s
  }

  /** Renaming touches only a dead wearer of the label, and of it only the name: the label, a mark and the time of death. */
  lemma RenamedIs(s: SessionData, l: string, now: int)
    requires s.status == Dead <==> s.diedAt.Some?
    ensures var t := Renamed(s, l, now);
            && t == s.(name := t.name) && (t.name != s.name <==> s.status == Dead && s.name == l)
            && (t.name != s.name ==> t.name == l + "~dead-" + Decimal.OfInt(s.diedAt.value))
  {
    if s.status == Dead && s.name == l {
      assert |Renamed(s, l, now).name| > |l|;
    }
  }

  // ---------- pigeonhole ----------

  function AliveCount(ss: seq<SessionData>): nat {
    if ss == [] then 0 else (if ss[0].status == Alive then 1 else 0) + AliveCount(ss[1..])
  }

  function AliveLabels(ss: seq<SessionData>): set<string> {
    if ss == [] then {} else (if ss[0].status == Alive then {ss[0].name} else {}) + AliveLabels(ss[1..])
  }

  lemma {:induction false} AliveLabelsFacts(ss: seq<SessionData>)
    ensures |AliveLabels(ss)| <= AliveCount(ss)
    ensures forall l :: l in AliveLabels(ss) <==> LabelTaken(ss, l)
  {
    if ss != [] {
      AliveLabelsFacts(ss[1..]);
      forall l ensures LabelTaken(ss, l) <==> Holds(ss[0], l) || LabelTaken(ss[1..], l) {
        assert forall i | 0 <= i < |ss[1..]| :: ss[1..][i] == ss[i + 1];
        if LabelTaken(ss, l) && !Holds(ss[0], l) {
          var i :| 0 <= i < |ss| && Holds(ss[i], l);
          assert ss[1..][i - 1] == ss[i];
        }
      }
    }
  }

  function Candidates(base: string, n: nat): set<string> {
    if n == 0 then {} else Candidates(base, n - 1) + {Candidate(base, n)}
  }

  lemma CandidateInjective(base: string, i: nat, j: nat)
    requires 1 <= i < j
    ensures Candidate(base, i) != Candidate(base, j)
  {
    var a, b := Candidate(base, i), Candidate(base, j);
    assert |b| > |base|;
    if i >= 2 && a == b {
      assert a[|base| + 1..] == Decimal.OfNat(i) && b[|base| + 1..] == Decimal.OfNat(j);
      Decimal.OfNatInjective(i, j);
    }
  }

  lemma {:induction false} CandidatesFacts(base: string, n: nat)
    ensures |Candidates(base, n)| == n
    ensures forall l :: l in Candidates(base, n) ==> exists i :: 1 <= i <= n && l == Candidate(base, i)
  {
    if n > 0 {
      CandidatesFacts(base, n - 1);
      if Candidate(base, n) in Candidates(base, n - 1) {
        var i :| 1 <= i <= n - 1 && Candidate(base, n) == Candidate(base, i);
        CandidateInjective(base, i, n);
        assert false;
      }
    }
  }

  lemma SubsetCardinality<T>(a: set<T>, b: set<T>)
    requires a <= b
    ensures |a| <= |b|
  {
    assert b == a + (b - a);
  }

  /** 9999 distinct candidates cannot all be held by fewer than 9999 living sessions. */
  lemma SomeCandidateFree(ss: seq<SessionData>, base: string)
    requires AliveCount(ss) <= SUFFIX_LIMIT - 2
    ensures exists i :: 1 <= i < SUFFIX_LIMIT && !LabelTaken(ss, Candidate(base, i))
  {
    var n := SUFFIX_LIMIT - 1;
    AliveLabelsFacts(ss);
    CandidatesFacts(base, n);
    if forall i | 1 <= i < SUFFIX_LIMIT :: LabelTaken(ss, Candidate(base, i)) {
      SubsetCardinality(Candidates(base, n), AliveLabels(ss));
      assert false;
    }
  }

  /**
   While at most 9998 sessions live, the resolved label is free and is the base or its lowest
   free suffix; the label stays within the characters a client may ask for.
   */
  lemma ResolvedIsFree(ss: seq<SessionData>, base: string, now: int)
    requires AliveCount(ss) <= SUFFIX_LIMIT - 2
    ensures var l := Resolved(ss, base, now);
            && !LabelTaken(ss, l)
            && (exists i :: 1 <= i < SUFFIX_LIMIT && l == Candidate(base, i)
                            && forall k | 1 <= k < i :: LabelTaken(ss, Candidate(base, k)))
  {
    SomeCandidateFree(ss, base);
    assert Candidate(base, 1) == base;
    if LabelTaken(ss, base) {
      var r := LowestFree(ss, base, 2);
      assert r.Some?;
      assert forall k | 1 <= k < r.value :: LabelTaken(ss, Candidate(base, k));
    } else {
      assert Resolved(ss, base, now) == Candidate(base, 1);
    }
  }

  /** Without that bound: the resolved label collides exactly when all 9999 candidates and the time-stamped one are held. */
  lemma ResolvedCollidesExactly(ss: seq<SessionData>, base: string, now: int)
    ensures LabelTaken(ss, Resolved(ss, base, now)) <==>
              && (forall i | 1 <= i < SUFFIX_LIMIT :: LabelTaken(ss, Candidate(base, i)))
              && LabelTaken(ss, Fallback(base, now))
  {
    assert Candidate(base, 1) == base;
  }

  lemma DigitsArePlain(s: string)
    requires Decimal.AllDigits(s)
    ensures Plain(s)
  {
  }

  lemma ResolvedIsPlain(ss: seq<SessionData>, base: string, now: int)
    requires Plain(base)
    ensures Plain(Resolved(ss, base, now))
  {
    forall i: nat ensures Plain(Candidate(base, i)) {
      DigitsArePlain(Decimal.OfNat(i));
    }
    DigitsArePlain(Decimal.OfNat(if now < 0 then -now else now));
  }

  lemma ValidLabelIsPlain(l: string)
    requires LabelValid(l)
    ensures Plain(l)
  {
  }

  // ---------- lookup ----------

  function IndexOfId(ss: seq<SessionData>, id: string): (r: Option<nat>)
    ensures r.Some? ==> r.value < |ss| && ss[r.value].id == id
    ensures r == None ==> forall i | 0 <= i < |ss| :: ss[i].id != id
  {
    if ss == [] then None
    else if ss[0].id == id then Some(0)
    else
      var r := IndexOfId(ss[1..], id);
      if r.Some? then Some(r.value + 1) else None
  }

  lemma IndexAfter(ss: seq<SessionData>, id: string, i: nat)
    requires i < |ss|
    ensures IndexOfId(ss[i..], id)
            == if ss[i].id == id then Some(0)
               else var t := IndexOfId(ss[i + 1..], id); if t.Some? then Some(t.value + 1) else None
  {
    assert ss[i..][1..] == ss[i + 1..];
  }

  ghost predicate DistinctIds(ss: seq<SessionData>) {
    forall i, j | 0 <= i < j < |ss| :: ss[i].id != ss[j].id
  }

  /** Registered sessions with plain labels have pairwise distinct labels, and living ones have plain labels. */
  ghost predicate LabelsUnique(ss: seq<SessionData>) {
    && (forall i, j | 0 <= i < j < |ss| :: Plain(ss[i].name) ==> ss[i].name != ss[j].name)
    && (forall i | 0 <= i < |ss| && ss[i].status == Alive :: Plain(ss[i].name))
  }

  /** byIdOrLabel: what a lookup may answer, given that ids win over labels and the living over the dead. */
  ghost predicate FoundBy(ss: seq<SessionData>, key: string, r: Option<nat>) {
    match r
    case None => forall i | 0 <= i < |ss| :: ss[i].id != key && ss[i].name != key
    case Some(k) =>
      && k < |ss|
      && if exists i :: 0 <= i < |ss| && ss[i].id == key then ss[k].id == key
         else
           && ss[k].name == key
           && (ss[k].status == Alive || !LabelTaken(ss, key))
           && forall i | 0 <= i < k :: ss[i].name == key ==> ss[i].status != ss[k].status
  }

  /** With unique labels the lookup is a function: a key that is no id names at most one session. */
  lemma LookupByLabelUnique(ss: seq<SessionData>, key: string, r: Option<nat>, k: nat)
    requires LabelsUnique(ss) && Plain(key) && FoundBy(ss, key, r)
    requires k < |ss| && ss[k].name == key
    requires forall i | 0 <= i < |ss| :: ss[i].id != key
    ensures r == Some(k)
  {
    assert r.Some? && ss[r.value].name == key;
  }

  /** Dead for longer than the retain time. */
  predicate Expired(s: SessionData, now: int) {
    s.status == Dead && s.diedAt.Some? && now - s.diedAt.value > DEAD_SESSION_RETAIN_MS
  }

  /** The sessions a sweep keeps, in order. */
  ghost function Swept(ss: seq<Session>, now: int): seq<Session>
    reads ss
  {
    if ss == [] then []
    else
      var n := |ss| - 1;
      Swept(ss[..n], now) + (if Expired(ss[n].View(), now) then [] else [ss[n]])
  }

  lemma SweptNone(now: int)
    ensures Swept([], now) == []
  {
  }

  lemma CutOne<T>(kept: seq<T>, all: seq<T>, i: nat)
    requires i < |all|
    ensures var k, s := |kept|, kept + all[i..];
            && s[k] == all[i] && s[..k] == kept && s[k + 1..] == all[i + 1..]
            && s == kept + [all[i]] + all[i + 1..]
  {
  }

  lemma SweptStep(ss: seq<Session>, i: nat, now: int)
    requires i < |ss|
    ensures ss[..0] == []
    ensures Swept(ss[..i + 1], now) == if Expired(ss[i].View(), now) then Swept(ss[..i], now) else Swept(ss[..i], now) + [ss[i]]
  {
    assert ss[..i + 1][..i] == ss[..i];
  }

  class Registry {
    /** The map's values in insertion order; each is stored under its own id. */
    var sessions: seq<Session>

    ghost function View(): seq<SessionData>
      reads this, sessions
    {
      seq(|sessions|, i requires 0 <= i < |sessions| reads this, sessions => sessions[i].View())
    }

    ghost predicate Valid()
      reads this, sessions
    {
      && (forall i, j | 0 <= i < j < |sessions| :: sessions[i] != sessions[j])
      && DistinctIds(View())
    }

    constructor ()
      ensures Valid() && sessions == []
    {
      sessions := [];
    }

    method IndexOf(id: string) returns (r: Option<nat>)
      ensures r == IndexOfId(View(), id)
    {
      hide IndexOfId;
      var i := 0;
      assert View()[0..] == View();
      while i < |sessions|
        invariant i <= |sessions|
        invariant IndexOfId(View(), id) == (var t := IndexOfId(View()[i..], id); if t.Some? then Some(i + t.value) else None)
      {
        IndexAfter(View(), id, i);
        if sessions[i].id == id {
          return Some(i);
        }
        i := i + 1;
      }
      return None;
    }

    method ByIdOrLabel(key: string) returns (r: Option<nat>)
      ensures FoundBy(View(), key, r)
    {
      r := IndexOf(key);
      if r.Some? {
        return;
      }
      var dead: Option<nat> := None;
      var i := 0;
      while i < |sessions|
        invariant i <= |sessions|
        invariant forall j | 0 <= j < i :: sessions[j].View().name == key ==> sessions[j].View().status == Dead
        invariant match dead
                  case None => forall j | 0 <= j < i :: sessions[j].View().name != key
                  case Some(k) => k < i && sessions[k].View().name == key && sessions[k].View().status == Dead
                                  && forall j | 0 <= j < k :: sessions[j].View().name != key
      {
        if sessions[i].name == key {
          if sessions[i].status == Alive {
            return Some(i);
          } else if dead == None {
            dead := Some(i);
          }
        }
        i := i + 1;
      }
      return dead;
    }

    method LabelIsTaken(l: string) returns (b: bool)
      ensures b == LabelTaken(View(), l)
    {
      for i := 0 to |sessions|
        invariant forall j | 0 <= j < i :: !Holds(View()[j], l)
      {
        if sessions[i].status == Alive && sessions[i].name == l {
          assert Holds(View()[i], l);
          return true;
        }
      }
      return false;
    }

    /** The suffix search of resolveLabel, before the renaming. */
    method ChooseLabel(requested: string, now: int) returns (chosen: string)
      ensures chosen == Resolved(View(), requested, now)
    {
      hide LabelTaken;
      ghost var ss := View();
      var taken := LabelIsTaken(requested);
      if !taken {
        return requested;
      }
      var i := 2;
      while i < SUFFIX_LIMIT
        invariant 2 <= i <= SUFFIX_LIMIT
        invariant LowestFree(ss, requested, 2) == LowestFree(ss, requested, i)
      {
        var candidate := requested + "-" + Decimal.OfNat(i);
        taken := LabelIsTaken(candidate);
        if !taken {
          return candidate;
        }
        i := i + 1;
      }
      return requested + "-" + Decimal.OfInt(now);
    }

    method RenameDeadCollisions(newLabel: string, now: int)
      requires Valid()
      modifies sessions
      ensures Valid()
      ensures forall i | 0 <= i < |sessions| ::
                sessions[i].View() == Renamed(old(sessions[i].View()), newLabel, now)
                && sessions[i].pipeClient == old(sessions[i].pipeClient)
    {
      hide Renamed;
      ghost var before := View();
      var i := 0;
      while i < |sessions|
        invariant i <= |sessions|
        invariant forall j | 0 <= j < |sessions| :: sessions[j].pipeClient == old(sessions[j].pipeClient)
        invariant forall j | 0 <= j < i :: sessions[j].View() == Renamed(before[j], newLabel, now)
        invariant forall j | i <= j < |sessions| :: sessions[j].View() == before[j]
      {
        RenameIfDead(sessions[i], newLabel, now);
        i := i + 1;
      }
      forall j, k | 0 <= j < k < |sessions| ensures View()[j].id != View()[k].id {
        assert before[j].id != before[k].id;
      }
    }

    static method RenameIfDead(s: Session, newLabel: string, now: int)
      modifies s
      ensures s.View() == Renamed(old(s.View()), newLabel, now) && s.pipeClient == old(s.pipeClient)
    {
      if s.status == Dead && s.name == newLabel {
        var ts := if s.diedAt.Some? then s.diedAt.value else now;
        s.name := newLabel + "~dead-" + Decimal.OfInt(ts);
      }
    }

    /** Map.set under the session's own id: in place if the id is present, else at the end. */
    method Add(s: Session)
      requires Valid() && s !in sessions
      modifies this
      ensures Valid()
      ensures sessions == match IndexOfId(old(View()), s.View().id)
                          case None => old(sessions) + [s]
                          case Some(k) => old(sessions)[k := s]
    {
      var k := IndexOf(s.id);
      match k {
        case None => sessions := sessions + [s];
        case Some(k) => sessions := sessions[k := s];
      }
      forall i, j | 0 <= i < j < |sessions| ensures sessions[i].View().id != sessions[j].View().id {
        if k.None? && j < |old(sessions)| {
          assert old(View())[i].id != old(View())[j].id;
        } else if k.None? {
          assert old(View())[i].id != s.id;
        } else if i != k.value && j != k.value {
          assert old(View())[i].id != old(View())[j].id;
        } else if i == k.value {
          assert old(View())[i].id != old(View())[j].id;
        } else {
          assert old(View())[i].id != old(View())[j].id;
        }
      }
    }

    method RemoveAt(k: nat)
      requires Valid() && k < |sessions|
      modifies this
      ensures Valid() && sessions == old(sessions)[..k] + old(sessions)[k + 1..]
    {
      ghost var before := View();
      sessions := sessions[..k] + sessions[k + 1..];
      forall i, j | 0 <= i < j < |sessions| ensures View()[i].id != View()[j].id {
        var i0, j0 := if i < k then i else i + 1, if j < k then j else j + 1;
        assert before[i0].id != before[j0].id;
      }
    }

    method SweepDead(now: int)
      requires Valid()
      modifies this
      ensures Valid() && sessions == Swept(old(sessions), now)
    {
      hide Expired, Swept, Valid;
      var all, k := sessions, 0;
      SweptNone(now);
      for i := 0 to |all|
        invariant Valid()
        invariant k == |Swept(all[..i], now)| && sessions == Swept(all[..i], now) + all[i..]
      {
        ghost var kept := Swept(all[..i], now);
        SweptStep(all, i, now);
        CutOne(kept, all, i);
        if IsExpired(all[i], now) {
          RemoveAt(k);
        } else {
          k := k + 1;
        }
      }
      assert all[..|all|] == all;
    }

    static predicate IsExpired(s: Session, now: int)
      reads s
      ensures IsExpired(s, now) == Expired(s.View(), now)
    {
      s.status == Dead && s.diedAt.Some? && now - s.diedAt.value > DEAD_SESSION_RETAIN_MS
    }
  }
}
