/**
 Agreement on the daemon secret (packages/shared/src/auth.ts): any number of daemons and
 clients race on one file. Creating the file with O_EXCL and writing its content are two
 separate steps here, and a process may crash between any two of its steps.
 */
module Auth {
  import opened Wrappers

  // ---------- the file ----------

  datatype File = Absent | Holding(content: string)

  predicate IsSpace(c: char) {
    c == ' ' || c == '\n' || c == '\r' || c == '\t'
  }

  function TrimLeft(s: string): string {
    if s != "" && IsSpace(s[0]) then TrimLeft(s[1..]) else s
  }

  function TrimRight(s: string): string {
    if s != "" && IsSpace(s[|s| - 1]) then TrimRight(s[..|s| - 1]) else s
  }

  /** readDaemonSecret; None is the exception for a missing or blank file. */
  function ReadSecret(f: File): (r: Option<string>)
    ensures f.Absent? ==> r == None
  {
    if f.Absent? then None
    else
      var s := TrimRight(TrimLeft(f.content));
      if s == "" then None else Some(s)
  }

  /** Generated secrets are hex text. */
  ghost predicate IsSecret(s: string) {
    s != "" && forall i | 0 <= i < |s| :: !IsSpace(s[i])
  }

  /** Content as written: the secret and a newline. */
  function Written(secret: string): File {
    Holding(secret + "\n")
  }

  lemma WrittenThenRead(secret: string)
    requires IsSecret(secret)
    ensures ReadSecret(Written(secret)) == Some(secret)
    ensures ReadSecret(Holding("")) == None
  {
    var s := secret + "\n";
    assert s[0] == secret[0] && !IsSpace(s[0]);
    assert TrimLeft(s) == s;
    assert s[..|s| - 1] == secret && IsSpace(s[|s| - 1]);
    assert !IsSpace(secret[|secret| - 1]);
    assert TrimRight(secret) == secret;
  }

  predicate Blank(c: char) {
    c as int == 32 || c as int == 10 || c as int == 13 || c as int == 9
  }

  lemma {:induction false} LeftTrimmed(s: string) returns (k: nat)
    ensures k <= |s| && TrimLeft(s) == s[k..] && forall i | 0 <= i < k :: Blank(s[i])
    ensures TrimLeft(s) != "" ==> !Blank(TrimLeft(s)[0])
  {
    if s != "" && IsSpace(s[0]) {
      var j := LeftTrimmed(s[1..]);
      k := j + 1;
      assert s[1..][j..] == s[k..];
      assert forall i | 1 <= i < k :: s[i] == s[1..][i - 1];
    } else {
      k := 0;
    }
  }

  lemma {:induction false} RightTrimmed(s: string) returns (k: nat)
    ensures k <= |s| && TrimRight(s) == s[..k] && forall i | k <= i < |s| :: Blank(s[i])
    ensures TrimRight(s) != "" ==> !Blank(TrimRight(s)[|TrimRight(s)| - 1])
  {
    if s != "" && IsSpace(s[|s| - 1]) {
      k := RightTrimmed(s[..|s| - 1]);
    } else {
      k := |s|;
    }
  }

  /** Reading a file: what remains without the blanks, line ends and tabs around it, if anything does. */
  lemma ReadTrims(text: string) returns (from: nat, to: nat)
    ensures from <= to <= |text| && (forall i | 0 <= i < from || to <= i < |text| :: Blank(text[i]))
    ensures from < to ==> !Blank(text[from]) && !Blank(text[to - 1])
    ensures ReadSecret(Holding(text)) == if from < to then Some(text[from..to]) else None
  {
    from := LeftTrimmed(text);
    var k := RightTrimmed(TrimLeft(text));
    to := from + k;
    assert text[from..][..k] == text[from..to];
    forall i | to <= i < |text| ensures Blank(text[i]) {
      assert text[from..][i - from] == text[i];
    }
    hide TrimLeft, TrimRight, IsSpace;
    if from < to {
      assert TrimLeft(text)[0] == text[from];
    }
  }

  /** readDaemonSecretWithRetry: what the file holds at each attempt is up to the other processes. */
  method ReadWithRetry(file: nat -> File, attempts: nat) returns (r: Option<string>, tried: nat)
    ensures tried <= attempts && forall k | 0 <= k < tried :: ReadSecret(file(k)) == None
    ensures r == None ==> tried == attempts
    ensures r.Some? ==> tried < attempts && ReadSecret(file(tried)) == r
  {
    tried := 0;
    while tried < attempts
      invariant tried <= attempts
      invariant forall k | 0 <= k < tried :: ReadSecret(file(k)) == None
    {
      var s := ReadSecret(file(tried));
      if s.Some? {
        return s, tried;
      }
      tried := tried + 1;
    }
    return None, tried;
  }

  // ---------- the processes ----------

  datatype Process =
    | Starting(candidate: string)       // a daemon before existsSync
    | SawNoFile(candidate: string)      // existsSync said no
    | MustRead                          // the file existed, or O_EXCL lost
    | Creator(candidate: string)        // O_EXCL won; content not written yet
    | Ready(secret: string)             // initDaemonSecret returned
    | Listening(secret: string)         // owns the pipe
    | Retrying(attempts: nat)           // a client with that many attempts left
    | Connectable(secret: string)       // a client that has read the secret
    | Gone                              // exited, gave up or crashed

  datatype World = World(file: File, procs: seq<Process>, pipeOwner: Option<nat>)

  /** One process takes its next step, or dies. */
  datatype Move = Next(i: nat) | Die(i: nat)

  function Step(w: World, m: Move): World {
    if m.i >= |w.procs| then w
    else
      match m
      case Die(i) =>
        World(w.file, w.procs[i := Gone], if w.pipeOwner == Some(i) then None else w.pipeOwner)
      case Next(i) =>
        match w.procs[i]
        case Starting(c) => w.(procs := w.procs[i := if w.file.Absent? then SawNoFile(c) else MustRead])
        case SawNoFile(c) =>
          if w.file.Absent? then World(Holding(""), w.procs[i := Creator(c)], w.pipeOwner)
          else w.(procs := w.procs[i := MustRead])
        case Creator(c) => World(Written(c), w.procs[i := Ready(c)], w.pipeOwner)
        case MustRead =>
          var r := ReadSecret(w.file);
          w.(procs := w.procs[i := if r.Some? then Ready(r.value) else Gone])
        case Ready(s) =>
          if w.pipeOwner == None then World(w.file, w.procs[i := Listening(s)], Some(i))
          else w.(procs := w.procs[i := Gone])
        case Retrying(n) =>
          if n == 0 then w.(procs := w.procs[i := Gone])
          else
            var r := ReadSecret(w.file);
            w.(procs := w.procs[i := if r.Some? then Connectable(r.value) else Retrying(n - 1)])
        case Listening(_) => w
        case Connectable(_) => w
        case Gone => w
  }

  function Run(w: World, ms: seq<Move>): World {
    if ms == [] then w else Step(Run(w, ms[..|ms| - 1]), ms[|ms| - 1])
  }

  function SecretOf(p: Process): Option<string> {
    match p
    case Ready(s) => Some(s)
    case Listening(s) => Some(s)
    case Connectable(s) => Some(s)
    case _ => None
  }

  /** Daemons and clients that have just been started, on whatever an earlier run left in the file. */
  ghost predicate Initial(w: World) {
    && w.pipeOwner == None
    && forall i | 0 <= i < |w.procs| ::
         (w.procs[i].Starting? && IsSecret(w.procs[i].candidate)) || w.procs[i].Retrying?
  }

  // ---------- what every step keeps ----------

  /** What holds of one process, given the file and the pipe. */
  ghost predicate Consistent(f: File, owner: Option<nat>, i: nat, p: Process) {
    && (SecretOf(p).Some? ==> SecretOf(p) == ReadSecret(f))
    && (p.Creator? ==> f == Holding(""))
    && (p.MustRead? ==> f.Holding?)
    && (p.Starting? || p.SawNoFile? || p.Creator? ==> IsSecret(p.candidate))
    && (p.Listening? <==> owner == Some(i))
  }

  ghost predicate Inv(w: World) {
    && (forall i | 0 <= i < |w.procs| :: Consistent(w.file, w.pipeOwner, i, w.procs[i]))
    && (forall i, j | 0 <= i < j < |w.procs| :: !(w.procs[i].Creator? && w.procs[j].Creator?))
  }

  /** A step of process `i` that leaves the file alone, except that a blank or missing file may be replaced. */
  lemma UpdateKeepsInv(w: World, i: nat, f: File, p: Process, owner: Option<nat>)
    requires Inv(w) && i < |w.procs|
    requires Consistent(f, owner, i, p)
    requires f == w.file || (ReadSecret(w.file) == None && f.Holding? && (w.procs[i].Creator? || w.file.Absent?))
    requires owner == w.pipeOwner || owner == Some(i) || (owner == None && w.pipeOwner == Some(i))
    requires owner == Some(i) ==> w.pipeOwner == None || w.pipeOwner == Some(i)
    requires p.Creator? ==> w.procs[i].Creator? || w.file.Absent?
    ensures Inv(World(f, w.procs[i := p], owner))
  {
    hide ReadSecret, IsSecret;
    var v := World(f, w.procs[i := p], owner);
    assert ReadSecret(Absent) == None by { AbsentHasNoSecret(); }
    forall j | 0 <= j < |v.procs| ensures Consistent(v.file, v.pipeOwner, j, v.procs[j]) {
      assert Consistent(w.file, w.pipeOwner, j, w.procs[j]);
      if j != i && w.procs[i].Creator? {
        assert !w.procs[j].Creator?;
      }
    }
    assert forall j | 0 <= j < |w.procs| && w.procs[j].Creator? :: Consistent(w.file, w.pipeOwner, j, w.procs[j]);
  }

  lemma AbsentHasNoSecret()
    ensures ReadSecret(Absent) == None
  {
  }

  lemma StepKeepsInv(w: World, m: Move)
    requires Inv(w)
    ensures Inv(Step(w, m))
    ensures ReadSecret(w.file).Some? ==> Step(w, m).file == w.file
    ensures |Step(w, m).procs| == |w.procs|
  {
    hide ReadSecret, IsSecret, Inv;
    AbsentHasNoSecret();
    if m.i < |w.procs| {
      var i, v := m.i, Step(w, m);
      InvAt(w, i);
      if w.procs[i].Creator? {
        BlankFile();
        WrittenThenRead(w.procs[i].candidate);
      }
      if v != w {
        assert v == World(v.file, w.procs[i := v.procs[i]], v.pipeOwner);
        UpdateKeepsInv(w, i, v.file, v.procs[i], v.pipeOwner);
      }
    }
  }

  lemma InvAt(w: World, i: nat)
    requires Inv(w) && i < |w.procs|
    ensures Consistent(w.file, w.pipeOwner, i, w.procs[i])
  {
  }

  lemma BlankFile()
    ensures ReadSecret(Holding("")) == None
  {
  }

  lemma {:induction false} RunKeepsInv(w: World, ms: seq<Move>)
    requires Inv(w)
    ensures Inv(Run(w, ms)) && |Run(w, ms).procs| == |w.procs|
  {
    if ms != [] {
      hide Step, Inv;
      RunKeepsInv(w, ms[..|ms| - 1]);
      StepKeepsInv(Run(w, ms[..|ms| - 1]), ms[|ms| - 1]);
    }
  }

  /**
   In every interleaving, crashes included, all processes that obtain a secret hold the same
   one; in particular a client's secret is that of whichever daemon owns the pipe, and at
   most one daemon does.
   */
  lemma SecretAgreement(w: World, ms: seq<Move>)
    requires Initial(w)
    ensures var v := Run(w, ms);
            && (forall i, j | 0 <= i < |v.procs| && 0 <= j < |v.procs| ::
                  SecretOf(v.procs[i]).Some? && SecretOf(v.procs[j]).Some? ==>
                    SecretOf(v.procs[i]) == SecretOf(v.procs[j]))
            && (forall i, j | 0 <= i < j < |v.procs| :: !(v.procs[i].Listening? && v.procs[j].Listening?))
  {
    RunKeepsInv(w, ms);
    var v := Run(w, ms);
    forall i | 0 <= i < |v.procs|
      ensures SecretOf(v.procs[i]).Some? ==> SecretOf(v.procs[i]) == ReadSecret(v.file)
      ensures v.procs[i].Listening? ==> v.pipeOwner == Some(i)
    {
      InvAt(v, i);
    }
  }

  // ---------- when a secret can be obtained at all ----------

  /** The file exists without a usable secret and nobody is left to write one. */
  ghost predicate Stuck(w: World) {
    w.file.Holding? && ReadSecret(w.file) == None && forall i | 0 <= i < |w.procs| :: !w.procs[i].Creator?
  }

  lemma {:induction false} StuckForever(w: World, ms: seq<Move>)
    requires Inv(w) && Stuck(w)
    ensures Inv(Run(w, ms)) && Stuck(Run(w, ms))
    ensures forall i | 0 <= i < |Run(w, ms).procs| :: SecretOf(Run(w, ms).procs[i]) == None
  {
    RunKeepsInv(w, ms);
    if ms != [] {
      var before := ms[..|ms| - 1];
      RunKeepsInv(w, before);
      StuckForever(w, before);
      StuckStep(Run(w, before), ms[|ms| - 1]);
    }
    NoSecretWhenStuck(Run(w, ms));
  }

  lemma NoSecretWhenStuck(w: World)
    requires Inv(w) && Stuck(w)
    ensures forall i | 0 <= i < |w.procs| :: SecretOf(w.procs[i]) == None
  {
    forall i | 0 <= i < |w.procs| ensures SecretOf(w.procs[i]) == None {
      InvAt(w, i);
    }
  }

  lemma StuckStep(w: World, m: Move)
    requires Stuck(w)
    ensures Stuck(Step(w, m))
  {
    hide ReadSecret;
  }

  ghost predicate Obtains(w: World, i: nat) {
    exists ms: seq<Move> :: var v := Run(w, ms); i < |v.procs| && SecretOf(v.procs[i]).Some?
  }

  lemma RunOne(w: World, m: Move)
    ensures Run(w, [m]) == Step(w, m)
  {
    assert [m][..0] == [];
  }

  lemma {:induction false} RunThen(w: World, xs: seq<Move>, ys: seq<Move>)
    ensures Run(w, xs + ys) == Run(Run(w, xs), ys)
    decreases |ys|
  {
    if ys == [] {
      assert xs + ys == xs;
    } else {
      var n := |ys| - 1;
      assert (xs + ys)[..|xs| + n] == xs + ys[..n];
      RunThen(w, xs, ys[..n]);
    }
  }

  /**
   A starting daemon can obtain the secret exactly when the file is not stuck: a daemon that
   crashes between creating and writing the file locks every later process out for good.
   */
  lemma SecretObtainable(w: World, i: nat)
    requires Inv(w) && i < |w.procs| && w.procs[i].Starting?
    ensures Obtains(w, i) <==> !Stuck(w)
  {
    hide Run, ReadSecret;
    if Stuck(w) {
      forall ms: seq<Move>
        ensures var v := Run(w, ms); i < |v.procs| ==> SecretOf(v.procs[i]) == None
      {
        StuckForever(w, ms);
      }
    } else if w.file.Absent? {
      TakeSteps(w, [Next(i), Next(i), Next(i)]);
      var w1 := Step(w, Next(i));
      var w2 := Step(w1, Next(i));
      assert Step(w2, Next(i)).procs[i].Ready?;
      assert SecretOf(Run(w, [Next(i), Next(i), Next(i)]).procs[i]).Some?;
    } else if ReadSecret(w.file).Some? {
      TakeSteps(w, [Next(|w.procs|), Next(i), Next(i)]);
      var w2 := Step(w, Next(i));
      assert SecretOf(Run(w, [Next(|w.procs|), Next(i), Next(i)]).procs[i]).Some?;
    } else {
      var j :| 0 <= j < |w.procs| && w.procs[j].Creator?;
      TakeSteps(w, [Next(j), Next(i), Next(i)]);
      WrittenThenRead(w.procs[j].candidate);
      var w1 := Step(w, Next(j));
      var w2 := Step(w1, Next(i));
      assert SecretOf(Run(w, [Next(j), Next(i), Next(i)]).procs[i]).Some?;
    }
  }

  lemma TakeSteps(w: World, ms: seq<Move>)
    requires |ms| == 3
    ensures Run(w, ms) == Step(Step(Step(w, ms[0]), ms[1]), ms[2])
  {
    hide Step;
    assert ms == [ms[0]] + [ms[1]] + [ms[2]];
    RunThen(w, [ms[0]] + [ms[1]], [ms[2]]);
    RunThen(w, [ms[0]], [ms[1]]);
    RunOne(w, ms[0]);
    RunOne(Run(w, [ms[0]]), ms[1]);
    RunOne(Run(w, [ms[0]] + [ms[1]]), ms[2]);
  }

  /**
   A loser of the race, exactly: at its read it obtains the secret if and only if nobody is
   between creating and writing the file and the file is not stuck; otherwise it exits.
   */
  lemma LoserExactly(w: World, i: nat)
    requires Inv(w) && i < |w.procs| && w.procs[i].MustRead?
    ensures var p, pending := Step(w, Next(i)).procs[i], exists j :: 0 <= j < |w.procs| && w.procs[j].Creator?;
            && (p.Ready? <==> !pending && !Stuck(w))
            && (p.Ready? ==> Some(p.secret) == ReadSecret(w.file))
            && (!p.Ready? ==> p == Gone)
  {
    hide ReadSecret;
    InvAt(w, i);
    if j :| 0 <= j < |w.procs| && w.procs[j].Creator? {
      InvAt(w, j);
      BlankFile();
    }
  }

  /**
   The promise that the loser of a spawn race reads the winner's value does not cover the
   moment between the winner's O_EXCL create and its write: there the loser exits.
   */
  lemma LoserMayFindNothing(a: string, b: string)
    requires IsSecret(a) && IsSecret(b)
    ensures var w := World(Absent, [Starting(a), Starting(b)], None);
            var v := Run(w, [Next(0), Next(1), Next(0), Next(1), Next(1)]);
            Initial(w) && v.procs == [Creator(a), Gone]
  {
    var w := World(Absent, [Starting(a), Starting(b)], None);
    var ms := [Next(0), Next(1), Next(0), Next(1), Next(1)];
    assert ms == [Next(0), Next(1), Next(0)] + [Next(1)] + [Next(1)];
    RunThen(w, [Next(0), Next(1), Next(0)] + [Next(1)], [Next(1)]);
    RunThen(w, [Next(0), Next(1), Next(0)], [Next(1)]);
    TakeSteps(w, [Next(0), Next(1), Next(0)]);
    var w3 := Run(w, [Next(0), Next(1), Next(0)]);
    assert w3 == World(Holding(""), [Creator(a), SawNoFile(b)], None);
    RunOne(w3, Next(1));
    var w4 := Step(w3, Next(1));
    assert w4 == World(Holding(""), [Creator(a), MustRead], None);
    RunOne(w4, Next(1));
    WrittenThenRead(a);
  }

  // ---------- daemons and clients that get through ----------

  /** A daemon with the secret takes the pipe if nobody owns it, and gives up if somebody does. */
  lemma ReadyListensExactly(w: World, i: nat)
    requires Inv(w) && i < |w.procs| && w.procs[i].Ready?
    ensures var v := Step(w, Next(i));
            && v.file == w.file
            && (w.pipeOwner == None ==> v.procs[i] == Listening(w.procs[i].secret) && v.pipeOwner == Some(i))
            && (w.pipeOwner != None ==> v.procs[i] == Gone && v.pipeOwner == w.pipeOwner)
  {
    hide ReadSecret;
  }

  /** A client with attempts left connects at its next one exactly if the file is usable then; else it has one attempt fewer, and with none left it gives up. */
  lemma RetryConnectsExactly(w: World, i: nat)
    requires i < |w.procs| && w.procs[i].Retrying?
    ensures var v, n := Step(w, Next(i)), w.procs[i].attempts;
            && v.file == w.file && v.pipeOwner == w.pipeOwner
            && v.procs[i] == (if n == 0 then Gone
                              else if ReadSecret(w.file).Some? then Connectable(ReadSecret(w.file).value) else Retrying(n - 1))
  {
    hide ReadSecret;
  }

  /** Somebody is left who can make the file usable. */
  ghost predicate Hopeful(w: World) {
    || ReadSecret(w.file).Some?
    || (exists j :: 0 <= j < |w.procs| && w.procs[j].Creator?)
    || (w.file.Absent? && exists j :: 0 <= j < |w.procs| && (w.procs[j].Starting? || w.procs[j].SawNoFile?))
  }

  lemma HopelessStep(w: World, m: Move)
    requires Inv(w) && !Hopeful(w)
    ensures !Hopeful(Step(w, m))
  {
    hide ReadSecret, IsSecret;
  }

  lemma {:induction false} HopelessForever(w: World, ms: seq<Move>)
    requires Inv(w) && !Hopeful(w)
    ensures Inv(Run(w, ms)) && !Hopeful(Run(w, ms))
  {
    RunKeepsInv(w, ms);
    if ms != [] {
      hide Step, Inv, Hopeful;
      HopelessForever(w, ms[..|ms| - 1]);
      HopelessStep(Run(w, ms[..|ms| - 1]), ms[|ms| - 1]);
    }
  }

  lemma NoSecretWhenHopeless(w: World, i: nat)
    requires Inv(w) && !Hopeful(w) && i < |w.procs|
    ensures SecretOf(w.procs[i]) == None
  {
    InvAt(w, i);
    hide ReadSecret;
  }

  lemma ConnectsNow(w: World, i: nat)
    requires i < |w.procs| && w.procs[i].Retrying? && w.procs[i].attempts > 0 && ReadSecret(w.file).Some?
    ensures i < |Step(w, Next(i)).procs| && SecretOf(Step(w, Next(i)).procs[i]).Some?
  {
    hide ReadSecret;
  }

  /** A waiting client can obtain the secret exactly while it has attempts left and somebody can still make the file usable. */
  lemma ClientObtainsExactly(w: World, i: nat)
    requires Inv(w) && i < |w.procs| && w.procs[i].Retrying?
    ensures Obtains(w, i) <==> w.procs[i].attempts > 0 && Hopeful(w)
  {
    hide Run, ReadSecret;
    if !Hopeful(w) {
      forall ms: seq<Move>
        ensures var v := Run(w, ms); i < |v.procs| ==> SecretOf(v.procs[i]) == None
      {
        HopelessForever(w, ms);
        if i < |Run(w, ms).procs| {
          NoSecretWhenHopeless(Run(w, ms), i);
        }
      }
    } else if w.procs[i].attempts == 0 {
      forall ms: seq<Move>
        ensures var v := Run(w, ms); i < |v.procs| ==> SecretOf(v.procs[i]) == None
      {
        OutOfAttempts(w, i, ms);
      }
    } else {
      ClientGetsThrough(w, i);
    }
  }

  lemma {:induction false} OutOfAttempts(w: World, i: nat, ms: seq<Move>)
    requires i < |w.procs| && (w.procs[i] == Retrying(0) || w.procs[i] == Gone)
    ensures i < |Run(w, ms).procs| && (Run(w, ms).procs[i] == Retrying(0) || Run(w, ms).procs[i] == Gone)
  {
    if ms != [] {
      hide ReadSecret;
      OutOfAttempts(w, i, ms[..|ms| - 1]);
    }
  }

  lemma ClientGetsThrough(w: World, i: nat)
    requires Inv(w) && Hopeful(w) && i < |w.procs| && w.procs[i].Retrying? && w.procs[i].attempts > 0
    ensures Obtains(w, i)
  {
    hide Run, ReadSecret, IsSecret;
    if ReadSecret(w.file).Some? {
      ConnectsNow(w, i);
      RunOne(w, Next(i));
      assert SecretOf(Run(w, [Next(i)]).procs[i]).Some?;
    } else if j :| 0 <= j < |w.procs| && w.procs[j].Creator? {
      InvAt(w, j);
      WrittenThenRead(w.procs[j].candidate);
      ConnectsNow(Step(w, Next(j)), i);
      TwoSteps(w, Next(j), Next(i));
      assert SecretOf(Run(w, [Next(j), Next(i)]).procs[i]).Some?;
    } else {
      var j :| 0 <= j < |w.procs| && (w.procs[j].Starting? || w.procs[j].SawNoFile?);
      InvAt(w, j);
      WrittenThenRead(w.procs[j].candidate);
      if w.procs[j].SawNoFile? {
        var w2 := Step(Step(w, Next(j)), Next(j));
        ConnectsNow(w2, i);
        TakeSteps(w, [Next(j), Next(j), Next(i)]);
        assert SecretOf(Run(w, [Next(j), Next(j), Next(i)]).procs[i]).Some?;
      } else {
        var w1 := Step(w, Next(j));
        var w3 := Step(Step(w1, Next(j)), Next(j));
        ConnectsNow(w3, i);
        TakeSteps(w1, [Next(j), Next(j), Next(i)]);
        RunOne(w, Next(j));
        RunThen(w, [Next(j)], [Next(j), Next(j), Next(i)]);
        assert SecretOf(Run(w, [Next(j)] + [Next(j), Next(j), Next(i)]).procs[i]).Some?;
      }
    }
  }

  lemma TwoSteps(w: World, a: Move, b: Move)
    ensures Run(w, [a, b]) == Step(Step(w, a), b)
  {
    hide Step;
    assert [a, b] == [a] + [b];
    RunThen(w, [a], [b]);
    RunOne(w, a);
    RunOne(Run(w, [a]), b);
  }
}
