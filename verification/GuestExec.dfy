/** `run_in_vm`: running a process in the guest and polling for its exit. */
module GuestExec {
  import opened Messages
  import opened Text

  const STDOUT_TRUNCATED := "<stdout truncation>"
  const STDERR_TRUNCATED := "<stderr truncation>"

  /** The final answer of guest-exec-status; output is decoded lossily beforehand. */
  datatype Status = Status(out: Option<string>, outTruncated: bool,
                           err: Option<string>, errTruncated: bool, exitcode: Option<int>)

  /** The outcome of one `run_in_vm` call: an error, or the lines it sent to the
      receiver and the exit code. */
  datatype Exec = Failed | Exited(report: seq<string>, code: int)

  function LinesOf(text: Option<string>): seq<string> {
    match text
    case None => []
    case Some(t) => Lines(t)
  }

  function Note(truncated: bool, text: string): seq<string> {
    if truncated then [text] else []
  }

  /** The lines reported once the process has exited, stderr last. */
  function ReportLines(st: Status): seq<string> {
    LinesOf(st.out) + Note(st.outTruncated, STDOUT_TRUNCATED)
    + LinesOf(st.err) + Note(st.errTruncated, STDERR_TRUNCATED)
  }

  function ExitCode(st: Status): int {
    match st.exitcode
    case None => 0
    case Some(code) => code
  }

  /** No reported line can trip the single-line assertion of `print_line`. */
  predicate SingleLines(e: Exec) {
    e.Exited? ==> forall l | l in e.report :: AtMostOneLine(l)
  }

  lemma ReportLinesAreSingle(st: Status)
    ensures SingleLines(Exited(ReportLines(st), ExitCode(st)))
  {
    forall l | l in ReportLines(st) ensures AtMostOneLine(l) {
      assert '\n' !in l;
      WithoutNewlineIsOneLine(l);
    }
  }

  // ------------------------------------------------------------------ backoff

  function Pow2(n: nat): nat {
    if n == 0 then 1 else 2 * Pow2(n - 1)
  }

  /** The length in milliseconds of the k-th sleep (from 0): 200 * 2^min(k, 4). */
  function Period(k: nat): nat {
    200 * Pow2(if k < 4 then k else 4)
  }

  /** The time slept before the n-th poll (from 0). */
  function SleptBefore(n: nat): nat {
    if n == 0 then 0 else SleptBefore(n - 1) + Period(n - 1)
  }

  lemma PowersOfTwo()
    ensures Pow2(0) == 1 && Pow2(1) == 2 && Pow2(2) == 4 && Pow2(3) == 8 && Pow2(4) == 16
  {
    assert Pow2(1) == 2 * Pow2(0);
    assert Pow2(2) == 2 * Pow2(1);
    assert Pow2(3) == 2 * Pow2(2);
    assert Pow2(4) == 2 * Pow2(3);
  }

  lemma {:induction false} SleptClosedForm(n: nat)
    ensures n <= 5 ==> SleptBefore(n) == 200 * (Pow2(n) - 1)
    ensures n >= 5 ==> SleptBefore(n) == 6200 + 3200 * (n - 5)
  {
    PowersOfTwo();
    if n > 0 {
      SleptClosedForm(n - 1);
      assert n == 5 ==> Pow2(5) == 2 * Pow2(4);
    }
  }

  /** The period never decreases and never exceeds 3.2 s (not 5 s). */
  lemma PeriodIsBounded(j: nat, k: nat)
    requires j <= k
    ensures 200 <= Period(j) <= Period(k) <= 3200
  {
    PowersOfTwo();
    var a, b := if j < 4 then j else 4, if k < 4 then k else 4;
    assert a in {0, 1, 2, 3, 4} && b in {0, 1, 2, 3, 4};
  }

  /** The poll that sees the exit is the first one at or after it. */
  predicate FirstPollAfter(n: nat, exitsAt: nat) {
    SleptBefore(n) >= exitsAt && (n > 0 ==> SleptBefore(n - 1) < exitsAt)
  }

  /** Detection lag: the backoff at most doubles the wait, and costs under 3.2 s. */
  lemma DetectionIsPrompt(n: nat, exitsAt: nat)
    requires FirstPollAfter(n, exitsAt)
    ensures exitsAt == 0 ==> SleptBefore(n) == 0
    ensures exitsAt > 0 ==> SleptBefore(n) < 2 * exitsAt + 200 && SleptBefore(n) < exitsAt + 3200
  {
    if n > 0 {
      PeriodIsBounded(n - 1, n - 1);
      SleptClosedForm(n - 1);
      SleptClosedForm(n);
      PowersOfTwo();
    }
  }

  lemma {:induction false} FirstPollIsUnique(m: nat, n: nat, exitsAt: nat)
    requires FirstPollAfter(m, exitsAt) && FirstPollAfter(n, exitsAt)
    ensures m == n
  {
    SleptClosedForm(m);
    SleptClosedForm(n);
    if m < n { SleptMonotone(m, n - 1); }
    if n < m { SleptMonotone(n, m - 1); }
  }

  lemma {:induction false} SleptMonotone(m: nat, n: nat)
    requires m <= n
    ensures SleptBefore(m) <= SleptBefore(n)
    decreases n
  {
    if m < n { SleptMonotone(m, n - 1); }
  }

  /** A guest process: it exits after `exitsAt` ms of polling sleep with the given
      status; the guest agent may refuse to start it, or fail to answer a poll. */
  datatype Guest = Guest(refused: bool, exitsAt: nat, failingPoll: Option<nat>, status: Status)

  /** The poll at which the loop ends. */
  ghost predicate EndsAt(g: Guest, n: nat) {
    && (g.failingPoll.Some? ==> n <= g.failingPoll.value)
    && (n > 0 ==> SleptBefore(n - 1) < g.exitsAt)
    && (g.failingPoll == Some(n) || SleptBefore(n) >= g.exitsAt)
  }

  /** What `run_in_vm` returns for a guest process. */
  ghost predicate Returns(g: Guest, r: Exec) {
    if g.refused then r.Failed?
    else exists n: nat :: EndsAt(g, n) && r == ResultAt(g, n)
  }

  /** The exit code is the process's own, 0 if it has none; reported are the lines of its
      stdout, then those of its stderr, each with a notice if they were cut off. */
  predicate ReportsStatus(st: Status, r: Exec)
    requires r.Exited?
  {
    && r.code == (if st.exitcode.Some? then st.exitcode.value else 0)
    && r.report == (if st.out.Some? then Lines(st.out.value) else [])
                   + (if st.outTruncated then ["<stdout truncation>"] else [])
                   + (if st.err.Some? then Lines(st.err.value) else [])
                   + (if st.errTruncated then ["<stderr truncation>"] else [])
  }

  lemma ReturnsStatus(g: Guest, r: Exec)
    requires Returns(g, r) && r.Exited?
    ensures ReportsStatus(g.status, r)
  {
  }

  /** An outcome that some guest process has. */
  ghost predicate Returned(r: Exec) {
    exists g :: Returns(g, r)
  }

  lemma ReturnedIsSingle(r: Exec)
    requires Returned(r)
    ensures SingleLines(r)
  {
    var g :| Returns(g, r);
    ReturnsOneResult(g, r, r);
  }

  function ResultAt(g: Guest, n: nat): Exec {
    if g.failingPoll == Some(n) then Failed else Exited(ReportLines(g.status), ExitCode(g.status))
  }

  /** The result is determined, and its lines are single. */
  lemma ReturnsOneResult(g: Guest, r: Exec, s: Exec)
    requires Returns(g, r) && Returns(g, s)
    ensures r == s && SingleLines(r)
  {
    ReportLinesAreSingle(g.status);
    if !g.refused {
      var m: nat :| EndsAt(g, m) && r == ResultAt(g, m);
      var n: nat :| EndsAt(g, n) && s == ResultAt(g, n);
      if m < n { SleptMonotone(m, n - 1); }
      if n < m { SleptMonotone(n, m - 1); }
    }
  }

  /** The reporting tail of `run_in_vm`. */
  method Report(st: Status) returns (sent: seq<string>)
    ensures sent == ReportLines(st)
  {
    sent := LinesOf(st.out);
    sent := sent + Note(st.outTruncated, STDOUT_TRUNCATED);
    sent := sent + LinesOf(st.err);
    sent := sent + Note(st.errTruncated, STDERR_TRUNCATED);
  }

  /** `run_in_vm`: the lines sent, the sleeps made and the outcome. */
  method RunInVm(g: Guest) returns (r: Exec, sent: seq<string>, sleeps: seq<nat>)
    ensures Returns(g, r)
    ensures g.refused ==> r.Failed? && sleeps == []
    ensures !g.refused ==> EndsAt(g, |sleeps|)
    ensures !g.refused ==> (r.Failed? <==> g.failingPoll == Some(|sleeps|))
    ensures forall k | 0 <= k < |sleeps| :: sleeps[k] == Period(k)
    ensures r.Failed? ==> sent == []
    ensures r.Exited? ==> r == Exited(ReportLines(g.status), ExitCode(g.status)) && sent == r.report
    ensures r.Exited? ==> ReportsStatus(g.status, r)
    ensures SingleLines(r)
    ensures r.Exited? ==> FirstPollAfter(|sleeps|, g.exitsAt)
  {
    sent, sleeps := [], [];
    if g.refused {
      return Failed, sent, sleeps;
    }
    PowersOfTwo();
    var now, period := 0, 200;
    while true
      invariant period == Period(|sleeps|) && now == SleptBefore(|sleeps|)
      invariant forall k | 0 <= k < |sleeps| :: sleeps[k] == Period(k)
      invariant |sleeps| > 0 ==> SleptBefore(|sleeps| - 1) < g.exitsAt
      invariant g.failingPoll.Some? ==> |sleeps| <= g.failingPoll.value
      decreases g.exitsAt - now
    {
      if g.failingPoll == Some(|sleeps|) {
        assert EndsAt(g, |sleeps|) && Failed == ResultAt(g, |sleeps|);
        return Failed, sent, sleeps;
      }
      if now >= g.exitsAt {
        break;
      }
      PeriodIsBounded(|sleeps|, |sleeps|);
      sleeps := sleeps + [period];
      now := now + period;
      if period <= 5000 / 2 {
        period := period * 2;
      }
      PeriodStep(|sleeps| - 1);
    }
    sent := Report(g.status);
    r := Exited(sent, ExitCode(g.status));
    assert EndsAt(g, |sleeps|) && r == ResultAt(g, |sleeps|);
    ReportLinesAreSingle(g.status);
  }

  /** Doubling while the period is at most half of 5 s. */
  lemma PeriodStep(k: nat)
    ensures Period(k + 1) == if Period(k) <= 2500 then Period(k) * 2 else Period(k)
  {
    PowersOfTwo();
    assert k < 4 ==> k in {0, 1, 2, 3};
  }
}
