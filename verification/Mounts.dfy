/** `mount_in_guest` and `setup_vm`: mounting the exported directories. */
module Mounts {
  import opened Messages
  import opened GuestExec
  import opened Text

  const MOUNT_FAILURE := 32
  const TRIES: nat := 5

  /** How the guest answers one `mount_in_guest`: the mkdir call, the mount calls
      that could be made, and the rendering of the error if there is one. */
  datatype Replies = Replies(mkdir: Exec, mounts: seq<Exec>, error: string)

  type Answers = a: Replies | |a.mounts| == TRIES
    witness Replies(Failed, [Failed, Failed, Failed, Failed, Failed], "")

  /** mount(1) exit code 32 is retried. */
  predicate Retried(e: Exec) {
    e.Exited? && e.code == MOUNT_FAILURE
  }

  predicate Succeeded(e: Exec) {
    e.Exited? && e.code == 0
  }

  function SentBy(e: Exec): seq<string> {
    match e
    case Failed => []
    case Exited(report, _) => report
  }

  /** The lines sent by the first `n` calls. */
  function SentUpTo(es: seq<Exec>, n: nat): seq<string>
    requires n <= |es|
  {
    if n == 0 then [] else SentUpTo(es, n - 1) + SentBy(es[n - 1])
  }

  /** The number of mount calls made once `i` answers were retried: up to the first
      answer that is not. */
  function AttemptsFrom(mounts: seq<Exec>, i: nat): (n: nat)
    requires i < |mounts|
    ensures i < n <= |mounts|
    ensures forall j | i <= j < n - 1 :: Retried(mounts[j])
    ensures n < |mounts| ==> !Retried(mounts[n - 1])
    decreases |mounts| - i
  {
    if i + 1 < |mounts| && Retried(mounts[i]) then AttemptsFrom(mounts, i + 1) else i + 1
  }

  function Attempts(mounts: seq<Exec>): (n: nat)
    requires mounts != []
    ensures 1 <= n <= |mounts|
    ensures forall j | 0 <= j < n - 1 :: Retried(mounts[j])
    ensures n < |mounts| ==> !Retried(mounts[n - 1])
  {
    AttemptsFrom(mounts, 0)
  }

  predicate Mounted(a: Answers)
  {
    Succeeded(a.mkdir) && Succeeded(a.mounts[Attempts(a.mounts) - 1])
  }

  function MountLines(a: Answers): seq<string>
  {
    SentBy(a.mkdir) + if Succeeded(a.mkdir) then SentUpTo(a.mounts, Attempts(a.mounts)) else []
  }

  /** Attempts are determined by their meaning. */
  lemma AttemptsUnique(mounts: seq<Exec>, n: nat)
    requires 1 <= n <= |mounts|
    requires forall i | 0 <= i < n - 1 :: Retried(mounts[i])
    requires n < |mounts| ==> !Retried(mounts[n - 1])
    ensures Attempts(mounts) == n
  {
    var m := Attempts(mounts);
    var x, y := Retried(mounts[m - 1]), Retried(mounts[n - 1]);
  }

  /** A mount succeeds iff some attempt succeeds after nothing but retried ones. */
  lemma MountedIff(a: Answers)
    ensures Mounted(a) <==>
      && a.mkdir.Exited? && a.mkdir.code == 0
      && exists i :: 0 <= i < 5 && a.mounts[i].Exited? && a.mounts[i].code == 0
                     && forall j | 0 <= j < i :: a.mounts[j].Exited? && a.mounts[j].code == 32
  {
    var n := Attempts(a.mounts);
    if i :| 0 <= i < 5 && a.mounts[i].Exited? && a.mounts[i].code == 0
            && forall j | 0 <= j < i :: a.mounts[j].Exited? && a.mounts[j].code == 32 {
      AttemptsUnique(a.mounts, i + 1);
    }
    if Mounted(a) {
      assert a.mounts[n - 1].Exited? && a.mounts[n - 1].code == 0;
    }
  }

  /** The seconds slept by the first `n` retried attempts: the i-th (from 0) sleeps i. */
  function Slept(n: nat): nat {
    if n == 0 then 0 else Slept(n - 1) + n - 1
  }

  lemma {:induction false} SleptIs(n: nat)
    ensures 2 * Slept(n) == n * (n - 1)
  {
    if n > 0 { SleptIs(n - 1); }
  }

  lemma SleptAtMostTenSeconds(n: nat)
    requires n <= TRIES
    ensures Slept(n) <= 10
  {
    assert Slept(1) == 0 && Slept(2) == 1 && Slept(3) == 3 && Slept(4) == 6 && Slept(5) == 10;
  }

  /** The retry loop of `mount_in_guest`: the answer of the last mount call made. */
  method MountWithRetry(mounts: seq<Exec>)
    returns (last: Exec, sent: seq<string>, attempts: nat, slept: nat)
    requires mounts != []
    ensures 1 <= attempts == Attempts(mounts) && last == mounts[attempts - 1]
    ensures sent == SentUpTo(mounts, attempts)
    ensures slept == Slept(if Retried(last) then attempts else attempts - 1)
    ensures forall j | 0 <= j < attempts - 1 :: mounts[j].Exited? && mounts[j].code == 32
    ensures attempts < |mounts| ==> !(last.Exited? && last.code == 32)
  {
    sent, attempts, slept, last := [], 0, 0, mounts[0];
    var retry := true;
    while retry && attempts < |mounts|
      invariant attempts <= |mounts| && (attempts == 0 ==> retry)
      invariant attempts > 0 ==> last == mounts[attempts - 1] && retry == Retried(last)
      invariant forall j | 0 <= j < attempts - 1 :: Retried(mounts[j])
      invariant sent == SentUpTo(mounts, attempts)
      invariant slept == Slept(if retry then attempts else attempts - 1)
      decreases |mounts| - attempts
    {
      last := mounts[attempts];
      retry := Retried(last);
      sent := sent + SentBy(last);
      if retry {
        slept := slept + attempts;
      }
      attempts := attempts + 1;
    }
    AttemptsUnique(mounts, attempts);
  }

  /** `mount_in_guest`. `attempts` counts mount calls, `slept` is in seconds. */
  method MountInGuest(a: Answers)
    returns (r: Result<()>, sent: seq<string>, attempts: nat, slept: nat)
    ensures r == if Mounted(a) then Ok(()) else Err(a.error)
    ensures sent == MountLines(a)
    ensures attempts == if Succeeded(a.mkdir) then Attempts(a.mounts) else 0
    ensures attempts <= 5 && slept <= 10
  {
    sent, attempts, slept := SentBy(a.mkdir), 0, 0;
    if !Succeeded(a.mkdir) {
      r := Err(a.error);
      return;
    }
    var last, more;
    last, more, attempts, slept := MountWithRetry(a.mounts);
    sent := sent + more;
    SleptAtMostTenSeconds(if Retried(last) then attempts else attempts - 1);
    r := if Succeeded(last) then Ok(()) else Err(a.error);
  }

  // ----------------------------------------------------------------- setup_vm

  /** The number of lines of the first `n` calls. */
  function LinesUpTo(es: seq<Exec>, n: nat): nat
    requires n <= |es|
  {
    if n == 0 then 0 else LinesUpTo(es, n - 1) + if es[n - 1].Exited? then |es[n - 1].report| else 0
  }

  /** The lines of each call made are among those sent, whole and in their place. */
  lemma {:induction false} ReportInPlace(es: seq<Exec>, n: nat, k: nat)
    requires k < n <= |es|
    ensures |SentUpTo(es, n)| == LinesUpTo(es, n) >= LinesUpTo(es, k + 1) >= LinesUpTo(es, k)
    ensures es[k].Exited? ==> SentUpTo(es, n)[LinesUpTo(es, k)..LinesUpTo(es, k + 1)] == es[k].report
  {
    if n > 1 {
      ReportInPlace(es, n - 1, if k == n - 1 then 0 else k);
    }
    if k < n - 1 && es[k].Exited? {
      var sent := SentUpTo(es, n - 1);
      assert SentUpTo(es, n)[LinesUpTo(es, k)..LinesUpTo(es, k + 1)]
          == sent[LinesUpTo(es, k)..LinesUpTo(es, k + 1)];
    }
  }

  /** What a mount sends: the lines of `mkdir`, then those of every mount call made. */
  lemma MountLinesAre(a: Answers, k: nat)
    requires a.mkdir.Exited? && a.mkdir.code == 0 && k < Attempts(a.mounts)
    ensures var first := |a.mkdir.report|;
      && |MountLines(a)| == first + LinesUpTo(a.mounts, Attempts(a.mounts))
      && MountLines(a)[..first] == a.mkdir.report
      && LinesUpTo(a.mounts, k) <= LinesUpTo(a.mounts, k + 1) <= LinesUpTo(a.mounts, Attempts(a.mounts))
      && (a.mounts[k].Exited? ==>
            MountLines(a)[first + LinesUpTo(a.mounts, k)..first + LinesUpTo(a.mounts, k + 1)] == a.mounts[k].report)
  {
    var n := Attempts(a.mounts);
    ReportInPlace(a.mounts, n, k);
    if a.mounts[k].Exited? {
      PlaceAfter(a.mkdir.report, SentUpTo(a.mounts, n), LinesUpTo(a.mounts, k), LinesUpTo(a.mounts, k + 1));
    }
  }

  lemma PlaceAfter(a: seq<string>, b: seq<string>, i: nat, j: nat)
    requires i <= j <= |b|
    ensures (a + b)[|a| + i..|a| + j] == b[i..j]
  {
  }

  /** How far setup has come: the lines sent, and the error it stopped at. */
  datatype Progress = Progress(lines: seq<string>, error: Option<string>) {
    /** One more mount, unless setup has stopped. */
    function Then(a: Answers): Progress {
      if error.Some? then this
      else Progress(lines + MountLines(a), if Mounted(a) then None else Some(a.error))
    }
  }

  /** The progress when the first `n` mounts had their turn. */
  function Tried(all: seq<Answers>, n: nat): Progress
    requires n <= |all|
  {
    if n == 0 then Progress([], None) else Tried(all, n - 1).Then(all[n - 1])
  }

  function SetupLines(all: seq<Answers>): seq<string> { Tried(all, |all|).lines }

  function SetupError(all: seq<Answers>): Option<string> { Tried(all, |all|).error }

  /** Setup goes on with the lines of the next mount, and stops at its error. */
  lemma SetupGoesOn(all: seq<Answers>, n: nat)
    requires n < |all| && Tried(all, n).error.None?
    ensures Tried(all, n + 1).lines == Tried(all, n).lines + MountLines(all[n])
    ensures Tried(all, n + 1).error == if Mounted(all[n]) then None else Some(all[n].error)
    ensures Tried(all, 0) == Progress([], None)
  {
  }

  /** The error of a setup is that of the first mount that failed. */
  lemma SetupErrorIs(all: seq<Answers>, n: nat)
    requires n < |all| && !Mounted(all[n]) && forall i | 0 <= i < n :: Mounted(all[i])
    ensures SetupError(all) == Some(all[n].error)
  {
    GoingOn(all, n);
    FailureStops(all, n + 1, |all|);
  }

  lemma {:induction false} GoingOn(all: seq<Answers>, n: nat)
    requires n <= |all| && forall i | 0 <= i < n :: Mounted(all[i])
    ensures Tried(all, n).error.None?
  {
    if n > 0 { GoingOn(all, n - 1); }
  }

  /** Nothing after the first failing mount matters. */
  lemma {:induction false} FailureStops(all: seq<Answers>, m: nat, n: nat)
    requires m <= n <= |all| && Tried(all, m).error.Some?
    ensures Tried(all, n) == Tried(all, m)
    decreases n
  {
    if m < n { FailureStops(all, m, n - 1); }
  }

  lemma {:induction false} SucceededSoFar(all: seq<Answers>, n: nat, i: nat)
    requires i < n <= |all| && Tried(all, n).error.None?
    ensures Mounted(all[i])
    decreases n
  {
    if i < n - 1 { SucceededSoFar(all, n - 1, i); }
  }

  lemma {:induction false} StoppedSomewhere(all: seq<Answers>, n: nat) returns (i: nat)
    requires n <= |all| && Tried(all, n).error.Some?
    ensures i < n && !Mounted(all[i])
  {
    if Tried(all, n - 1).error.Some? {
      i := StoppedSomewhere(all, n - 1);
    } else {
      i := n - 1;
    }
  }

  /** Setup succeeds iff the shared mount and every configured mount do. */
  lemma SetupSucceedsIff(all: seq<Answers>)
    ensures SetupError(all).None? <==> forall a | a in all :: Mounted(a)
  {
    if SetupError(all).None? {
      forall a | a in all ensures Mounted(a) {
        var i :| 0 <= i < |all| && all[i] == a;
        SucceededSoFar(all, |all|, i);
      }
    } else {
      var i := StoppedSomewhere(all, |all|);
      assert all[i] in all;
    }
  }

  /** Each answer is what `run_in_vm` returns for some guest process. */
  ghost predicate FromGuests(a: Answers) {
    Returned(a.mkdir) && forall e | e in a.mounts :: Returned(e)
  }

  lemma {:induction false} TriedLinesAreSingle(all: seq<Answers>, n: nat)
    requires n <= |all| && forall a | a in all :: FromGuests(a)
    ensures forall l | l in Tried(all, n).lines :: AtMostOneLine(l)
  {
    if n > 0 {
      MountLinesAreSingle(all[n - 1]);
      TriedLinesAreSingle(all, n - 1);
    }
  }

  lemma MountLinesAreSingle(a: Answers)
    requires FromGuests(a)
    ensures forall l | l in MountLines(a) :: AtMostOneLine(l)
  {
    ReturnedIsSingle(a.mkdir);
    forall e | e in a.mounts ensures SingleLines(e) {
      ReturnedIsSingle(e);
    }
    SentUpToAreSingle(a.mounts, Attempts(a.mounts));
  }

  lemma {:induction false} SentUpToAreSingle(es: seq<Exec>, n: nat)
    requires n <= |es| && forall e | e in es :: SingleLines(e)
    ensures forall l | l in SentUpTo(es, n) :: AtMostOneLine(l)
  {
    if n > 0 {
      SentUpToAreSingle(es, n - 1);
      assert es[n - 1] in es;
    }
  }
}
