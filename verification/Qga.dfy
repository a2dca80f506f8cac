/** `QgaWrapper::new`: connecting to the guest agent before a deadline. */
module Qga {
  /** How one attempt goes. */
  datatype Answer =
    | QemuExited                       // try_wait says that QEMU is gone
    | ConnectFailed
    | TimeoutRejected                  // set_read_timeout fails
    | SyncFailed
    | Synced(version: string)          // guest_sync and the version query succeed
    | NoVersion                        // guest_sync succeeds, the version query does not

  datatype Outcome = Connected(version: string) | QemuGone | NoReadTimeout | BadVersion | TimedOut

  /** The outcome an answer that is not retried leads to. */
  function OutcomeOf(a: Answer): Outcome {
    match a
    case QemuExited => QemuGone
    case TimeoutRejected => NoReadTimeout
    case Synced(version) => Connected(version)
    case _ => BadVersion
  }

  /** An attempt and the milliseconds it takes, the retry sleep not included. */
  datatype Attempt = Attempt(answer: Answer, took: nat)

  const KVM_TIMEOUT: nat := 80_000
  const EMULATE_TIMEOUT: nat := 120_000
  const RETRY_SLEEP: nat := 1_000

  function Timeout(hasKvm: bool): nat {
    if hasKvm then KVM_TIMEOUT else EMULATE_TIMEOUT
  }

  predicate TriedAgain(a: Answer) {
    a.ConnectFailed? || a.SyncFailed?
  }

  /** The time of the k-th deadline check when all earlier attempts were retried. */
  function CheckedAt(first: nat, world: nat -> Attempt, k: nat): nat {
    if k == 0 then first else CheckedAt(first, world, k - 1) + world(k - 1).took + RETRY_SLEEP
  }

  lemma {:induction false} ChecksAreSpaced(first: nat, world: nat -> Attempt, k: nat)
    ensures CheckedAt(first, world, k) >= first + 1000 * k
  {
    if k > 0 { ChecksAreSpaced(first, world, k - 1); }
  }

  /** Between two checks lie an attempt that failed and a second of sleep. */
  lemma NextCheck(first: nat, world: nat -> Attempt, k: nat)
    ensures CheckedAt(first, world, 0) == first
    ensures CheckedAt(first, world, k + 1) == CheckedAt(first, world, k) + world(k).took + 1000
  {
  }

  /** The loop ends after `k` retried attempts: at the deadline, or with an attempt
      made in time that is not retried. */
  ghost predicate EndsAfter(hasKvm: bool, first: nat, world: nat -> Attempt, k: nat) {
    && (forall j: nat | j < k :: TriedAgain(world(j).answer))
    && (k > 0 ==> CheckedAt(first, world, k - 1) < Timeout(hasKvm))
    && (CheckedAt(first, world, k) >= Timeout(hasKvm) || !TriedAgain(world(k).answer))
  }

  lemma {:induction false} ChecksAreOrdered(first: nat, world: nat -> Attempt, j: nat, k: nat)
    requires j <= k
    ensures CheckedAt(first, world, j) <= CheckedAt(first, world, k)
    decreases k
  {
    if j < k { ChecksAreOrdered(first, world, j, k - 1); }
  }

  /** Where the loop ends is determined by the clock and the answers. */
  lemma EndIsUnique(hasKvm: bool, first: nat, world: nat -> Attempt, k: nat, l: nat)
    requires EndsAfter(hasKvm, first, world, k) && EndsAfter(hasKvm, first, world, l)
    ensures k == l
  {
    if k < l { ChecksAreOrdered(first, world, k, l - 1); }
    if l < k { ChecksAreOrdered(first, world, l, k - 1); }
  }

  /** `QgaWrapper::new`. `tries` counts connection attempts. */
  method Connect(hasKvm: bool, first: nat, world: nat -> Attempt)
    returns (r: Outcome, tries: nat, ghost k: nat)
    ensures EndsAfter(hasKvm, first, world, k)
    ensures tries <= if hasKvm then 80 else 120
    ensures k <= tries <= k + 1
    ensures r == if CheckedAt(first, world, k) >= Timeout(hasKvm) then TimedOut else OutcomeOf(world(k).answer)
    ensures r.Connected? ==> tries == k + 1
    ensures var end := if hasKvm then 80_000 else 120_000; var answer := world(k).answer;
      && (r == TimedOut <==> CheckedAt(first, world, k) >= end)
      && (r == QemuGone <==> CheckedAt(first, world, k) < end && answer == QemuExited)
      && (r == NoReadTimeout <==> CheckedAt(first, world, k) < end && answer == TimeoutRejected)
      && (r == BadVersion <==> CheckedAt(first, world, k) < end && answer == NoVersion)
      && (forall v :: r == Connected(v) <==> CheckedAt(first, world, k) < end && answer == Synced(v))
  {
    var end := Timeout(hasKvm);
    var now, i := first, 0;
    tries, k := 0, 0;
    while now < end
      invariant now == CheckedAt(first, world, i) && tries == i == k
      invariant forall j: nat | j < i :: TriedAgain(world(j).answer)
      invariant i > 0 ==> CheckedAt(first, world, i - 1) < end
      decreases end - now
    {
      ChecksAreSpaced(first, world, i);
      var attempt := world(i);
      if attempt.answer.QemuExited? {
        return QemuGone, tries, k;
      }
      tries := tries + 1;
      match attempt.answer {
        case TimeoutRejected => return NoReadTimeout, tries, k;
        case Synced(version) => return Connected(version), tries, k;
        case NoVersion => return BadVersion, tries, k;
        case _ =>
      }
      now := now + attempt.took + RETRY_SLEEP;
      assert now == CheckedAt(first, world, i + 1);
      i := i + 1;
      k := i;
    }
    if i > 0 {
      ChecksAreSpaced(first, world, i - 1);
    }
    return TimedOut, tries, k;
  }
}
