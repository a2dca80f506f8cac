/** The contract documented for the update alphabet says that no update follows a
    failure. The protocol keeps it exactly in the runs without late lines. */
module Contract {
  import opened Messages
  import opened Streams
  import opened Protocol
  import opened Invariants
  import opened Runs

  /** The contract: in no schedule is anything received after a failure. */
  ghost predicate FailureIsTerminal(env: Env) {
    forall schedule: seq<Action> | Allowed(env, schedule) ::
      NothingAfterFailure(After(env, schedule).channel.received)
  }

  ghost predicate NothingAfterFailure(r: seq<Output>) {
    forall i | 0 <= i < |r| - 1 :: !r[i].IsFailure()
  }

  predicate Fails(f: Fate) {
    f.BootFails? || f.SetupFails? || f.CommandFails?
  }

  /** The lines of the readers that the run starts. */
  function LateLines(env: Env): seq<string> {
    (if StreamsBootLog(env) then StreamLines(env.bootLog, PopLast) else [])
    + (if Launches(env) then StreamLines(env.commandLog, TrimNewline) else [])
  }

  lemma QuietReaders(env: Env, schedule: seq<Action>)
    requires Allowed(env, schedule) && LateLines(env) == []
    ensures forall x | x in After(env, schedule).channel.log :: x.sender == Main
  {
    var full := CanComplete(env, schedule);
    Conservation(env, full);
    var log := After(env, full).channel.log;
    ReaderSendsStreamLines(env.bootLog, PopLast);
    ReaderSendsStreamLines(env.commandLog, TrimNewline);
    assert From(log, BootThread) == [] && From(log, CommandThread) == [];
    forall x | x in log ensures x.sender == Main {
      FromMembers(log, x.sender, x.msg);
    }
  }

  lemma LateLineAfterFailure(env: Env, schedule: seq<Action>, i: nat) returns (x: Sent)
    requires Allowed(env, schedule)
    requires var r := After(env, schedule).channel.received; i < |r| - 1 && r[i].IsFailure()
    ensures x in After(env, schedule).channel.log && x.sender != Main
  {
    OnlyLateLinesFollowFailure(env, schedule, i, i + 1);
    x := After(env, schedule).channel.log[i + 1];
  }

  lemma KeptWithoutLateLines(env: Env, schedule: seq<Action>)
    requires Allowed(env, schedule) && LateLines(env) == []
    ensures NothingAfterFailure(After(env, schedule).channel.received)
  {
    QuietReaders(env, schedule);
    var ch := After(env, schedule).channel;
    forall i | 0 <= i < |ch.received| - 1 ensures !ch.received[i].IsFailure() {
      if ch.received[i].IsFailure() {
        var x := LateLineAfterFailure(env, schedule, i);
      }
    }
  }

  lemma FailureNeedsFate(env: Env, schedule: seq<Action>, m: Output)
    requires Allowed(env, schedule)
    requires m in After(env, schedule).channel.received && m.IsFailure()
    ensures Fails(FateOf(env))
  {
    ControlLanguage(env, schedule);
    ControlsKeepMembers(After(env, schedule).channel.received, m);
    OnlyFailuresFail(FateOf(env), Controls(After(env, schedule).channel.received), m);
  }

  lemma OnlyFailuresFail(f: Fate, c: seq<Output>, m: Output)
    requires c <= ControlsOf(f) && m in c && m.IsFailure()
    ensures Fails(f)
  {
    assert m in ControlsOf(f);
  }

  lemma KeptWithoutFailure(env: Env, schedule: seq<Action>)
    requires Allowed(env, schedule) && !Fails(FateOf(env))
    ensures NothingAfterFailure(After(env, schedule).channel.received)
  {
    var r := After(env, schedule).channel.received;
    forall i | 0 <= i < |r| - 1 ensures !r[i].IsFailure() {
      if r[i].IsFailure() {
        FailureNeedsFate(env, schedule, r[i]);
      }
    }
  }

  /** Neither reader has sent anything. */
  ghost predicate ReadersSilent(log: seq<Sent>) {
    forall x | x in log :: x.sender == Main
  }

  /** The readers may be slow: the main thread can finish before either of them has
      sent a line. */
  lemma {:induction false} MainFirst(env: Env, schedule: seq<Action>) returns (longer: seq<Action>)
    requires Allowed(env, schedule) && ReadersSilent(After(env, schedule).channel.log)
    ensures Allowed(env, longer) && ReadersSilent(After(env, longer).channel.log)
    ensures After(env, longer).at.pc == Finished
    decreases WorkLeft(env, After(env, schedule))
  {
    InvariantHolds(env, schedule);
    var s := After(env, schedule);
    if s.at.pc == Finished {
      longer := schedule;
    } else {
      var a := if MainEnabled(s.at) then MainMoves else QemuExits;
      assert Enabled(s, a);
      WorkDrops(env, s, a);
      longer := ExtendSchedule(env, schedule, a);
      PostMembers(s.channel, Main, MainMove(env, s.at).msg);
      longer := MainFirst(env, longer);
    }
  }

  /** So a failure can be reported before any line of a reader. */
  lemma FailureFirst(env: Env, schedule: seq<Action>) returns (longer: seq<Action>)
    requires Allowed(env, schedule) && Fails(FateOf(env))
    requires ReadersSilent(After(env, schedule).channel.log)
    ensures Allowed(env, longer) && ReadersSilent(After(env, longer).channel.log)
    ensures !NoFailure(After(env, longer).channel.log)
  {
    longer := MainFirst(env, schedule);
    InvariantHolds(env, longer);
    FinishedHasFailed(env, After(env, longer));
  }

  lemma FinishedHasFailed(env: Env, s: State)
    requires Invariant(env, s) && s.at.pc == Finished && Fails(FateOf(env))
    ensures !NoFailure(s.channel.log)
  {
    NothingUnsent(s.channel.log, Main, MainScript(env));
    MainControls(env);
    LastWordIsSaid(FateOf(env));
    FromMembers(s.channel.log, Main, LastWord(FateOf(env)));
  }

  lemma LastWordIsSaid(f: Fate)
    ensures LastWord(f) in ControlsOf(f)
    ensures Fails(f) ==> LastWord(f).IsFailure()
  {
    assert ControlsOf(f)[|ControlsOf(f)| - 1] == LastWord(f);
  }

  /** A failing run with late lines has a schedule that breaks the contract. */
  lemma BrokenByLateLines(env: Env) returns (schedule: seq<Action>, i: nat)
    requires Fails(FateOf(env)) && LateLines(env) != []
    ensures Allowed(env, schedule)
    ensures var r := After(env, schedule).channel.received; i < |r| - 1 && r[i].IsFailure()
  {
    var early := FailureFirst(env, []);
    schedule := CanComplete(env, early);
    var log := After(env, early).channel.log;
    var x :| x in log && x.msg.IsFailure();
    i :| 0 <= i < |log| && log[i] == x;
    var y := SomeLateLine(env, schedule);
    LateLineIsLater(log, After(env, schedule).channel.log, y);
    ReceivedIsLog(env, schedule, i);
  }

  lemma ReceivedIsLog(env: Env, schedule: seq<Action>, i: nat)
    requires Allowed(env, schedule) && After(env, schedule).channel.hungUp
    requires i < |After(env, schedule).channel.log|
    ensures var ch := After(env, schedule).channel; |ch.received| == |ch.log| && ch.received[i] == ch.log[i].msg
  {
    Conservation(env, schedule);
  }

  lemma LateLineIsLater(log: seq<Sent>, longer: seq<Sent>, y: Sent)
    requires log <= longer && ReadersSilent(log) && y in longer && y.sender != Main
    ensures |log| < |longer|
  {
    assert |log| == |longer| ==> log == longer;
  }

  lemma SomeLateLine(env: Env, schedule: seq<Action>) returns (y: Sent)
    requires Allowed(env, schedule) && After(env, schedule).channel.hungUp && LateLines(env) != []
    ensures y in After(env, schedule).channel.log && y.sender != Main
  {
    Conservation(env, schedule);
    var log := After(env, schedule).channel.log;
    ReaderSendsStreamLines(env.bootLog, PopLast);
    ReaderSendsStreamLines(env.commandLog, TrimNewline);
    var t := if StreamsBootLog(env) && StreamLines(env.bootLog, PopLast) != [] then BootThread else CommandThread;
    assert From(log, t) != [];
    y := Sent(t, From(log, t)[0]);
    FromMembers(log, t, From(log, t)[0]);
  }

  /** The contract is kept exactly by the runs that do not fail and by those whose
      readers have nothing to say. */
  lemma ContractKeptIff(env: Env)
    ensures FailureIsTerminal(env) <==> !Fails(FateOf(env)) || LateLines(env) == []
  {
    if !Fails(FateOf(env)) || LateLines(env) == [] {
      forall schedule: seq<Action> | Allowed(env, schedule)
        ensures NothingAfterFailure(After(env, schedule).channel.received)
      {
        if LateLines(env) == [] {
          KeptWithoutLateLines(env, schedule);
        } else {
          KeptWithoutFailure(env, schedule);
        }
      }
    } else {
      var schedule, i := BrokenByLateLines(env);
      assert !NothingAfterFailure(After(env, schedule).channel.received);
    }
  }
}
