/** Numbers in template strings: how the daemon writes suffixes and exit codes, and reads the latter back. */
module Decimal {
  import opened Wrappers

  function Digit(d: nat): (c: char)
    requires d < 10
    ensures IsDigit(c)
  {
    '0' + d as char
  }

  predicate IsDigit(c: char) {
    '0' <= c <= '9'
  }

  predicate AllDigits(s: string) {
    forall i | 0 <= i < |s| :: IsDigit(s[i])
  }

  function OfNat(n: nat): (s: string)
    ensures s != "" && AllDigits(s)
  {
    if n < 10 then [Digit(n)] else OfNat(n / 10) + [Digit(n % 10)]
  }

  function OfInt(n: int): (s: string)
    ensures s != ""
  {
    if n < 0 then "-" + OfNat(-n) else OfNat(n)
  }

  function ToNat(s: string): nat
    requires AllDigits(s)
  {
    if s == "" then 0 else 10 * ToNat(s[..|s| - 1]) + (s[|s| - 1] as int - '0' as int)
  }

  lemma {:induction false} ToNatOfNat(n: nat)
    ensures ToNat(OfNat(n)) == n
  {
    if n >= 10 {
      ToNatOfNat(n / 10);
      assert OfNat(n)[..|OfNat(n)| - 1] == OfNat(n / 10);
    } else {
      assert OfNat(n)[..0] == "";
    }
  }

  lemma OfNatInjective(m: nat, n: nat)
    requires OfNat(m) == OfNat(n)
    ensures m == n
  {
    ToNatOfNat(m);
    ToNatOfNat(n);
  }

  /** The integer matched by -?\d+ over the whole text, if it matches. */
  function ToInt(s: string): Option<int> {
    if s != "" && AllDigits(s) then Some(ToNat(s))
    else if |s| > 1 && s[0] == '-' && AllDigits(s[1..]) then Some(0 - ToNat(s[1..]))
    else None
  }

  lemma ToIntOfInt(n: int)
    ensures ToInt(OfInt(n)) == Some(n)
  {
    if n < 0 {
      ToNatOfNat(-n);
      var s := OfInt(n);
      assert s[1..] == OfNat(-n);
      assert s[0] == '-' && !IsDigit(s[0]);
    } else {
      ToNatOfNat(n);
    }
  }

  // ---------- exit reasons ----------

  /** Why a session died; the daemon passes it on as text. */
  datatype Cause = ByeFrame(exitCode: int) | HeartbeatLost | PidGone | PidGoneInject | PipeClosed

  function ReasonText(c: Cause): string {
    match c
    case ByeFrame(n) => "bye:" + OfInt(n)
    case HeartbeatLost => "heartbeat_lost"
    case PidGone => "pid_gone"
    case PidGoneInject => "pid_gone_inject"
    case PipeClosed => "pipe_closed"
  }

  /** The listener's test: /^bye:(-?\d+)$/ and parseInt. */
  function ExitCodeIn(reason: string): Option<int> {
    if |reason| >= 4 && reason[..4] == "bye:" then ToInt(reason[4..]) else None
  }

  /** The text loses nothing: an exit code is recovered for a bye, with its value, and for nothing else. */
  lemma ExitCodeSurvivesText(c: Cause)
    ensures ExitCodeIn(ReasonText(c)) == if c.ByeFrame? then Some(c.exitCode) else None
  {
    match c {
      case ByeFrame(n) =>
        assert ReasonText(c)[..4] == "bye:" && ReasonText(c)[4..] == OfInt(n);
        ToIntOfInt(n);
      case HeartbeatLost => assert ReasonText(c)[..4][0] == 'h';
      case PidGone => assert ReasonText(c)[..4][0] == 'p';
      case PidGoneInject => assert ReasonText(c)[..4][0] == 'p';
      case PipeClosed => assert ReasonText(c)[..4][0] == 'p';
    }
  }

  /** Different causes have different texts, so the reason tells the cause. */
  lemma ReasonsTellCauses(c: Cause, d: Cause)
    ensures ReasonText(c) == ReasonText(d) <==> c == d
  {
    ExitCodeSurvivesText(c);
    ExitCodeSurvivesText(d);
    if !c.ByeFrame? && !d.ByeFrame? && c != d {
      assert |ReasonText(c)| != |ReasonText(d)|;
    }
    hide ExitCodeIn;
  }
}
