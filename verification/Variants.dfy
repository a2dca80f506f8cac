/** The documentation of the update alphabet promises of a successful run "at least one
    of each variant in order as defined". Which runs send every variant, and which keep
    the order on every schedule. */
module Variants {
  import opened Messages
  import opened Streams
  import opened Protocol
  import opened Invariants
  import opened Runs
  import opened Contract
  import opened Stages

  // --------------------------------------------------------------- every variant

  /** A variant, by its position, is among the messages and is not a failure. */
  ghost predicate Sees(r: seq<Output>, k: nat) {
    exists m :: m in r && m.Order() == k && !m.IsFailure()
  }

  ghost predicate SeesEveryVariant(r: seq<Output>) {
    forall k: nat | k < 9 :: Sees(r, k)
  }

  /** What is received in a completed run, by its senders. */
  lemma ReceivedFromSenders(env: Env, schedule: seq<Action>, m: Output)
    requires Allowed(env, schedule) && After(env, schedule).channel.hungUp
    ensures m in After(env, schedule).channel.received <==>
      || m in Play(MainScript(env))
      || (StreamsBootLog(env) && m in Wrapped(BootLine, StreamLines(env.bootLog, PopLast)))
      || (Launches(env) && m in Wrapped(CommandLine, StreamLines(env.commandLog, TrimNewline)))
  {
    Conservation(env, schedule);
    var ch := After(env, schedule).channel;
    ReaderSendsStreamLines(env.bootLog, PopLast);
    ReaderSendsStreamLines(env.commandLog, TrimNewline);
    FromMembers(ch.log, Main, m);
    FromMembers(ch.log, BootThread, m);
    FromMembers(ch.log, CommandThread, m);
    SentMembers(ch.log, m);
  }

  lemma {:induction false} SentMembers(log: seq<Sent>, m: Output)
    ensures m in AllSent(log) <==>
      Sent(Main, m) in log || Sent(BootThread, m) in log || Sent(CommandThread, m) in log
  {
    if m in AllSent(log) {
      var i :| 0 <= i < |log| && AllSent(log)[i] == m;
      assert log[i] == Sent(log[i].sender, m);
      match log[i].sender { case Main => case BootThread => case CommandThread => }
    }
    if x :| x in log && x.msg == m {
      var i :| 0 <= i < |log| && log[i] == x;
      assert AllSent(log)[i] == m;
    }
  }

  lemma InParts(a: seq<Output>, lines: seq<Output>, b: seq<Output>, report: seq<Output>, c: seq<Output>, m: Output)
    ensures m in a + (lines + (b + (report + c))) <==> m in a || m in lines || m in b || m in report || m in c
  {
  }

  /** What the main thread sends in a run whose command exits. */
  lemma MainParts(env: Env)
    requires FateOf(env).Exits?
    ensures Play(MainScript(env)) ==
      [BootStart, BootEnd(Ok(())), SetupStart]
      + (Wrapped(SetupLine, env.setupLines) + ([SetupEnd(Ok(())), CommandStart]
      + (Wrapped(CommandLine, env.command.report) + [CommandEnd(Ok(env.command.code))])))
  {
    PlayBooted(env);
    PlaySetup(env);
  }

  /** The main thread's lines in such a run. */
  lemma MainLines(env: Env, m: Output)
    requires FateOf(env).Exits? && m.IsLine()
    ensures m in Play(MainScript(env)) <==>
      m in Wrapped(SetupLine, env.setupLines) || m in Wrapped(CommandLine, env.command.report)
  {
    MainParts(env);
    InParts([BootStart, BootEnd(Ok(())), SetupStart], Wrapped(SetupLine, env.setupLines),
            [SetupEnd(Ok(())), CommandStart], Wrapped(CommandLine, env.command.report),
            [CommandEnd(Ok(env.command.code))], m);
  }

  predicate HasLinesOfEveryStage(env: Env)
    requires env.command.Exited?
  {
    && StreamLines(env.bootLog, PopLast) != [] && env.setupLines != []
    && (env.command.report != [] || StreamLines(env.commandLog, TrimNewline) != [])
  }

  /** The lines of a completed run whose command exits. */
  lemma ReceivedLines(env: Env, schedule: seq<Action>, m: Output)
    requires Allowed(env, schedule) && After(env, schedule).channel.hungUp && FateOf(env).Exits? && m.IsLine()
    ensures m in After(env, schedule).channel.received <==>
      || m in Wrapped(SetupLine, env.setupLines) || m in Wrapped(CommandLine, env.command.report)
      || m in Wrapped(BootLine, StreamLines(env.bootLog, PopLast))
      || m in Wrapped(CommandLine, StreamLines(env.commandLog, TrimNewline))
  {
    ReceivedFromSenders(env, schedule, m);
    MainLines(env, m);
  }

  /** The lines received are those of the readers and those of the main thread. */
  ghost predicate LinesAre(env: Env, r: seq<Output>)
    requires env.command.Exited?
  {
    forall m: Output | m.IsLine() :: m in r <==>
      || m in Wrapped(SetupLine, env.setupLines) || m in Wrapped(CommandLine, env.command.report)
      || m in Wrapped(BootLine, StreamLines(env.bootLog, PopLast))
      || m in Wrapped(CommandLine, StreamLines(env.commandLog, TrimNewline))
  }

  lemma BootSource(env: Env, r: seq<Output>, m: Output)
    requires env.command.Exited? && LinesAre(env, r) && m in r && m.Boot?
    ensures StreamLines(env.bootLog, PopLast) != []
  {
  }

  lemma BootSeen(env: Env, r: seq<Output>, line: string)
    requires env.command.Exited? && LinesAre(env, r)
    requires Boot(line) in Wrapped(BootLine, StreamLines(env.bootLog, PopLast))
    ensures Sees(r, 1)
  {
    assert Boot(line) in r;
  }

  lemma SeesBoot(env: Env, r: seq<Output>)
    requires env.command.Exited? && LinesAre(env, r)
    ensures Sees(r, 1) <==> StreamLines(env.bootLog, PopLast) != []
  {
    var lines := StreamLines(env.bootLog, PopLast);
    if lines != [] {
      assert Wrapped(BootLine, lines)[0] == Boot(lines[0]);
      BootSeen(env, r, lines[0]);
    } else if m :| m in r && m.Order() == 1 && !m.IsFailure() {
      BootSource(env, r, m);
    }
  }

  lemma SeesSetup(env: Env, r: seq<Output>)
    requires env.command.Exited? && LinesAre(env, r)
    ensures Sees(r, 4) <==> env.setupLines != []
  {
    if env.setupLines != [] {
      assert Wrapped(SetupLine, env.setupLines)[0] == Setup(env.setupLines[0]);
      assert Setup(env.setupLines[0]) in r;
    }
  }

  lemma CommandSeen(env: Env, r: seq<Output>, line: string)
    requires env.command.Exited? && LinesAre(env, r)
    requires Command(line) in Wrapped(CommandLine, env.command.report)
          || Command(line) in Wrapped(CommandLine, StreamLines(env.commandLog, TrimNewline))
    ensures Sees(r, 7)
  {
    assert Command(line) in r;
  }

  lemma CommandSource(env: Env, r: seq<Output>, m: Output)
    requires env.command.Exited? && LinesAre(env, r) && m in r && m.Command?
    ensures env.command.report != [] || StreamLines(env.commandLog, TrimNewline) != []
  {
  }

  lemma SeesCommand(env: Env, r: seq<Output>)
    requires env.command.Exited? && LinesAre(env, r)
    ensures Sees(r, 7) <==> env.command.report != [] || StreamLines(env.commandLog, TrimNewline) != []
  {
    var report, lines := env.command.report, StreamLines(env.commandLog, TrimNewline);
    if report != [] {
      assert Wrapped(CommandLine, report)[0] == Command(report[0]);
      CommandSeen(env, r, report[0]);
    } else if lines != [] {
      assert Wrapped(CommandLine, lines)[0] == Command(lines[0]);
      CommandSeen(env, r, lines[0]);
    } else if m :| m in r && m.Order() == 7 && !m.IsFailure() {
      CommandSource(env, r, m);
    }
  }

  /** A completed run sends every variant, without a failure, exactly if its command
      exits and each stage has a line. */
  lemma EveryVariantIff(env: Env, schedule: seq<Action>)
    requires Allowed(env, schedule) && After(env, schedule).channel.hungUp
    ensures SeesEveryVariant(After(env, schedule).channel.received) <==>
      FateOf(env).Exits? && HasLinesOfEveryStage(env)
  {
    var r := After(env, schedule).channel.received;
    ControlLanguage(env, schedule);
    if FateOf(env).Exits? {
      forall m: Output | m.IsLine() {
        ReceivedLines(env, schedule, m);
      }
      assert LinesAre(env, r);
      SeesBoot(env, r);
      SeesSetup(env, r);
      SeesCommand(env, r);
      SeesControls(r, FateOf(env));
    } else {
      SeesNoCommandEnd(r, FateOf(env));
    }
  }

  lemma SeesNoCommandEnd(r: seq<Output>, f: Fate)
    requires Controls(r) == ControlsOf(f) && !f.Exits?
    ensures !Sees(r, 8)
  {
    forall m | m in r && m.Order() == 8 ensures m.IsFailure() {
      ControlsKeepMembers(r, m);
    }
  }

  lemma SeesControls(r: seq<Output>, f: Fate)
    requires Controls(r) == ControlsOf(f) && f.Exits?
    ensures Sees(r, 0) && Sees(r, 2) && Sees(r, 3) && Sees(r, 5) && Sees(r, 6) && Sees(r, 8)
  {
    assert ControlsOf(f) == [BootStart, BootEnd(Ok(())), SetupStart, SetupEnd(Ok(())), CommandStart, LastWord(f)];
    SeesFirst(r, LastWord(f));
  }

  lemma SeesFirst(r: seq<Output>, end: Output)
    requires Controls(r) == [BootStart, BootEnd(Ok(())), SetupStart, SetupEnd(Ok(())), CommandStart, end]
    requires end.CommandEnd? && !end.IsFailure()
    ensures Sees(r, 0) && Sees(r, 2) && Sees(r, 3) && Sees(r, 5) && Sees(r, 6) && Sees(r, 8)
  {
    SeesControl(r, BootStart, 0);
    SeesControl(r, BootEnd(Ok(())), 1);
    SeesControl(r, SetupStart, 2);
    SeesControl(r, SetupEnd(Ok(())), 3);
    SeesControl(r, CommandStart, 4);
    SeesControl(r, end, 5);
  }

  lemma SeesControl(r: seq<Output>, m: Output, i: nat)
    requires i < |Controls(r)| && Controls(r)[i] == m && !m.IsFailure()
    ensures Sees(r, m.Order())
  {
    assert m in Controls(r);
  }

  // ----------------------------------------------------------------------- order

  predicate InOrder(r: seq<Output>) {
    forall i, j | 0 <= i < j < |r| :: r[i].Order() <= r[j].Order()
  }

  predicate Sorted(s: Script, least: nat) {
    match s
    case End => true
    case Say(m, rest) => least <= m.Order() && Sorted(rest, m.Order())
  }

  lemma {:induction false} SortedPlays(s: Script, least: nat)
    requires Sorted(s, least)
    ensures InOrder(Play(s)) && forall m | m in Play(s) :: least <= m.Order()
  {
    if s.Say? { SortedPlays(s.tail, s.head.Order()); }
  }

  lemma {:induction false} SetupsSorted(lines: seq<string>, rest: Script, least: nat)
    requires least <= 4 && Sorted(rest, 5)
    ensures Sorted(SaySetups(lines, rest), least)
  {
    if lines != [] { SetupsSorted(lines[1..], rest, 4); }
  }

  lemma {:induction false} CommandsSorted(lines: seq<string>, rest: Script, least: nat)
    requires least <= 7 && Sorted(rest, 8)
    ensures Sorted(SayCommands(lines, rest), least)
  {
    if lines != [] { CommandsSorted(lines[1..], rest, 7); }
  }

  lemma SetupScriptSorted(env: Env)
    ensures Sorted(SetupScript(env), 3)
  {
    if env.command.Exited? {
      CommandsSorted(env.command.report, Say(CommandEnd(Ok(env.command.code)), End), 6);
    }
    assert Sorted(CommandScript(env), 6);
    assert Sorted(AfterMounts(env), 5);
    SetupsSorted(env.setupLines, AfterMounts(env), 3);
  }

  /** The main thread keeps the order. */
  lemma MainInOrder(env: Env)
    ensures InOrder(Play(MainScript(env)))
  {
    SpawnOutcome(env);
    SetupScriptSorted(env);
    assert Sorted(MainScript(env), 0);
    SortedPlays(MainScript(env), 0);
  }

  lemma {:induction false} SilentIsMain(log: seq<Sent>)
    requires ReadersSilent(log)
    ensures AllSent(log) == From(log, Main)
  {
    if log != [] {
      var n := |log| - 1;
      assert log[n] in log;
      SilentIsMain(log[..n]);
    }
  }

  /** Every run has a schedule in which the readers' lines come after everything else. */
  lemma ReadersLast(env: Env) returns (schedule: seq<Action>, n: nat)
    ensures Allowed(env, schedule) && After(env, schedule).channel.hungUp
    ensures var ch := After(env, schedule).channel;
      && n <= |ch.log| && |ch.received| == |ch.log| && ch.received[..n] == Play(MainScript(env))
      && (forall i | 0 <= i < |ch.log| :: ch.received[i] == ch.log[i].msg && (ch.log[i].sender == Main <==> i < n))
  {
    var early := MainFirst(env, []);
    schedule := CanComplete(env, early);
    n := |After(env, early).channel.log|;
    FinishedHasSent(env, early);
    Conservation(env, schedule);
    MainThenReaders(After(env, early).channel.log, After(env, schedule).channel.log, Play(MainScript(env)));
  }

  lemma FinishedHasSent(env: Env, schedule: seq<Action>)
    requires Allowed(env, schedule) && After(env, schedule).at.pc == Finished
    ensures From(After(env, schedule).channel.log, Main) == Play(MainScript(env))
  {
    InvariantHolds(env, schedule);
    NothingUnsent(After(env, schedule).channel.log, Main, MainScript(env));
  }

  lemma {:induction false} MainThenReaders(log: seq<Sent>, longer: seq<Sent>, main: seq<Output>)
    requires log <= longer && ReadersSilent(log) && From(log, Main) == From(longer, Main) == main
    ensures AllSent(longer)[..|log|] == main
    ensures forall i | 0 <= i < |longer| :: longer[i].sender == Main <==> i < |log|
  {
    SilentIsMain(log);
    LaterAreReaders(log, longer);
    AllSentPrefix(log, longer);
  }

  lemma {:induction false} AllSentPrefix(log: seq<Sent>, longer: seq<Sent>)
    requires log <= longer
    ensures AllSent(longer)[..|log|] == AllSent(log)
  {
    var a, b := AllSent(longer)[..|log|], AllSent(log);
    assert |a| == |b| && forall i | 0 <= i < |a| :: a[i] == longer[i].msg && b[i] == log[i].msg;
  }

  lemma LaterAreReaders(log: seq<Sent>, longer: seq<Sent>)
    requires log <= longer && ReadersSilent(log) && From(log, Main) == From(longer, Main)
    ensures forall i | 0 <= i < |longer| :: longer[i].sender == Main <==> i < |log|
  {
    var rest := longer[|log|..];
    assert longer == log + rest;
    FromConcat(log, rest, Main);
    forall i | 0 <= i < |longer| ensures longer[i].sender == Main <==> i < |log| {
      if i < |log| {
        assert longer[i] == log[i] && log[i] in log;
      } else {
        assert rest[i - |log|] == longer[i] && rest[i - |log|] in rest;
        FromMembers(rest, Main, longer[i].msg);
      }
    }
  }

  lemma LinesOfReaders(env: Env, schedule: seq<Action>, y: Sent)
    requires Allowed(env, schedule) && y in After(env, schedule).channel.log && y.sender != Main
    ensures y.msg.Boot? || (y.msg.Command? && Sent(Main, CommandStart) in After(env, schedule).channel.log)
  {
    InvariantHolds(env, schedule);
    var log := After(env, schedule).channel.log;
    var i :| 0 <= i < |log| && log[i] == y;
    OrderedAt(log, i);
  }

  /** The end of the stage that a reader's line belongs to is always sent. */
  lemma StageEnds(env: Env, schedule: seq<Action>, y: Sent) returns (m: Output)
    requires Allowed(env, schedule) && After(env, schedule).channel.hungUp
    requires y in After(env, schedule).channel.log && y.sender != Main
    ensures m in Play(MainScript(env))
    ensures (y.msg.Boot? && m.BootEnd?) || (y.msg.Command? && m.CommandEnd?)
  {
    LinesOfReaders(env, schedule, y);
    if y.msg.Boot? {
      m := BootEndSent(env);
    } else {
      StartIsScripted(env, schedule);
      m := CommandEndSent(env);
    }
  }

  lemma BootEndSent(env: Env) returns (m: Output)
    ensures m in Play(MainScript(env)) && m.BootEnd?
  {
    MainControls(env);
    m := BootEndOf(FateOf(env));
  }

  lemma CommandEndSent(env: Env) returns (m: Output)
    requires CommandStart in Controls(Play(MainScript(env)))
    ensures m in Play(MainScript(env)) && m.CommandEnd?
  {
    MainControls(env);
    m := CommandEndOf(FateOf(env));
  }

  lemma StartIsScripted(env: Env, schedule: seq<Action>)
    requires Allowed(env, schedule) && After(env, schedule).channel.hungUp
    requires Sent(Main, CommandStart) in After(env, schedule).channel.log
    ensures CommandStart in Controls(Play(MainScript(env)))
  {
    Conservation(env, schedule);
    FromMembers(After(env, schedule).channel.log, Main, CommandStart);
    ControlsKeepMembers(Play(MainScript(env)), CommandStart);
  }

  lemma BootEndOf(f: Fate) returns (m: Output)
    ensures m in ControlsOf(f) && m.BootEnd?
  {
    m := if f.BootFails? then LastWord(f) else BootEnd(Ok(()));
    assert ControlsOf(f)[if f.BootFails? && !f.started then 0 else 1] == m;
  }

  lemma CommandEndOf(f: Fate) returns (m: Output)
    requires CommandStart in ControlsOf(f)
    ensures m in ControlsOf(f) && m.CommandEnd?
  {
    m := LastWord(f);
    assert ControlsOf(f)[|ControlsOf(f)| - 1] == m;
  }

  /** The documented order on every schedule. */
  ghost predicate OrderGuaranteed(env: Env) {
    forall schedule: seq<Action> | Allowed(env, schedule) && After(env, schedule).channel.hungUp ::
      InOrder(After(env, schedule).channel.received)
  }

  lemma OrderBroken(env: Env) returns (schedule: seq<Action>)
    requires LateLines(env) != []
    ensures Allowed(env, schedule) && After(env, schedule).channel.hungUp
    ensures !InOrder(After(env, schedule).channel.received)
  {
    var n;
    schedule, n := ReadersLast(env);
    var ch := After(env, schedule).channel;
    var y := SomeLateLine(env, schedule);
    var m := StageEnds(env, schedule, y);
    EndBeforeLine(ch.log, ch.received, n, y, m);
  }

  lemma EndBeforeLine(log: seq<Sent>, r: seq<Output>, n: nat, y: Sent, m: Output)
    requires n <= |log| == |r| && y in log && m in r[..n]
    requires forall i | 0 <= i < |log| :: r[i] == log[i].msg && (log[i].sender == Main <==> i < n)
    requires y.sender != Main && ((y.msg.Boot? && m.BootEnd?) || (y.msg.Command? && m.CommandEnd?))
    ensures !InOrder(r)
  {
    var i :| 0 <= i < |log| && log[i] == y;
    var j :| 0 <= j < n && r[..n][j] == m;
    assert r[i] == y.msg && r[j] == m;
    assert r[j].Order() > r[i].Order();
  }

  /** The updates are sure to come in the documented order exactly if the readers that
      the run starts have no lines. */
  lemma OrderGuaranteedIff(env: Env)
    ensures OrderGuaranteed(env) <==> LateLines(env) == []
  {
    if LateLines(env) == [] {
      MainInOrder(env);
      forall schedule: seq<Action> | Allowed(env, schedule) && After(env, schedule).channel.hungUp
        ensures InOrder(After(env, schedule).channel.received)
      {
        QuietReaders(env, schedule);
        SilentIsMain(After(env, schedule).channel.log);
        Conservation(env, schedule);
      }
    } else {
      var schedule := OrderBroken(env);
    }
  }

  /** The first `n` variants occur in turn, whatever else occurs in between. */
  ghost predicate InTurn(r: seq<Output>, n: nat) {
    n == 0 || exists j :: 0 <= j < |r| && r[j].Order() == n - 1 && InTurn(r[..j], n - 1)
  }

  lemma {:induction false} InTurnNeedsBoot(r: seq<Output>, n: nat) returns (i: nat, j: nat)
    requires 3 <= n && InTurn(r, n)
    ensures i < j < |r| && r[i].Boot? && r[j].BootEnd?
  {
    j :| 0 <= j < |r| && r[j].Order() == n - 1 && InTurn(r[..j], n - 1);
    if n == 3 {
      i :| 0 <= i < j && r[..j][i].Order() == 1 && InTurn(r[..j][..i], 1);
    } else {
      i, j := InTurnNeedsBoot(r[..j], n - 1);
    }
  }

  lemma MainSendsNoBoot(env: Env, schedule: seq<Action>, i: nat)
    requires Allowed(env, schedule) && i < |After(env, schedule).channel.log|
    ensures var x := After(env, schedule).channel.log[i]; if x.sender == Main then !x.msg.Boot? else x.msg.IsLine()
  {
    InvariantHolds(env, schedule);
    OrderedAt(After(env, schedule).channel.log, i);
  }

  /** No run is sure to show the variants in turn: each has a schedule on which no boot
      line comes before the end of the boot. */
  lemma NoRunIsAsDocumented(env: Env) returns (schedule: seq<Action>)
    ensures Allowed(env, schedule) && After(env, schedule).channel.hungUp
    ensures !InTurn(After(env, schedule).channel.received, 9)
  {
    var n;
    schedule, n := ReadersLast(env);
    var ch := After(env, schedule).channel;
    if InTurn(ch.received, 9) {
      var i, j := InTurnNeedsBoot(ch.received, 9);
      MainSendsNoBoot(env, schedule, i);
      MainSendsNoBoot(env, schedule, j);
    }
  }
}
