/** The receiver over the protocol: for every schedule, the verdict and the shape of
    the final page of a run are functions of its fate. */
module Verdicts {
  import opened Messages
  import opened Text
  import opened Screen
  import opened Ui
  import opened Streams
  import opened GuestExec
  import opened Protocol
  import opened Invariants
  import opened Runs

  // ------------------------------------------------------------------- verdict

  /** The verdict of a run: none if the command was not run to its end. */
  function VerdictOf(f: Fate): Option<i32> {
    match f
    case Shell => Some(0)
    case Exits(code) => Some(Wrap32(code))
    case _ => None
  }

  function Stopped(name: string, depth: nat, expand: bool): Section
    requires depth >= 1
  {
    Section(Heading(name, depth), [], expand)
  }

  /** The final page of a run, lines aside: one section a stage, the last one
      expanded if the run failed or the output was asked for. */
  function PageOf(mode: Mode, target: string, f: Fate): Page {
    var t, b, s := Stopped(target, 1, false), Stopped("Booting", 2, false), Stopped("Setting up VM", 2, false);
    match f
    case BootFails(false, _) => Page([], t.(expand := true), None)
    case BootFails(true, _) => Page([t], b.(expand := true), None)
    case SetupFails(_) => Page([t, b], s.(expand := true), None)
    case Shell => Page([t, b], s, Some(0))
    case CommandFails(_) => Page([t, b, s], Stopped("Running command", 2, true), None)
    case Exits(code) =>
      Page([t, b, s], Stopped("Running command", 2, mode.showCmd || code != 0), Some(Wrap32(code)))
  }

  /** The page after one more message, lines aside. */
  lemma SkeletonAfter(mode: Mode, p: Page, msgs: seq<Output>, m: Output, q: Page)
    requires Skeleton(UpdateAll(mode, p, msgs)) == Skeleton(q)
    ensures Skeleton(UpdateAll(mode, p, msgs + [m])) == Skeleton(Update(mode, q, m))
  {
    UpdateAllConcat(mode, p, msgs, [m]);
    UpdateOne(mode, UpdateAll(mode, p, msgs), m);
    SkeletonStep(mode, UpdateAll(mode, p, msgs), q, m);
  }

  function BootingPage(target: string): Page {
    StartStage(Blank(target), "Booting")
  }

  function SettingUpPage(target: string): Page {
    StartStage(BootingPage(target), "Setting up VM")
  }

  function RunningPage(target: string): Page {
    StartStage(SettingUpPage(target), "Running command")
  }

  lemma BootStage(mode: Mode, target: string)
    ensures UpdateAll(mode, Blank(target), [BootStart]) == BootingPage(target)
    ensures UpdateAll(mode, Blank(target), [BootStart, BootEnd(Ok(())), SetupStart]) == SettingUpPage(target)
  {
    UpdateOne(mode, Blank(target), BootStart);
    UpdateAllConcat(mode, Blank(target), [BootStart], [BootEnd(Ok(()))]);
    UpdateOne(mode, BootingPage(target), BootEnd(Ok(())));
    UpdateAllConcat(mode, Blank(target), [BootStart] + [BootEnd(Ok(()))], [SetupStart]);
    UpdateOne(mode, BootingPage(target), SetupStart);
    assert [BootStart] + [BootEnd(Ok(()))] + [SetupStart] == [BootStart, BootEnd(Ok(())), SetupStart];
  }

  lemma SetupStage(mode: Mode, target: string)
    ensures UpdateAll(mode, Blank(target), [BootStart, BootEnd(Ok(())), SetupStart, SetupEnd(Ok(())), CommandStart])
         == RunningPage(target)
  {
    var boot := [BootStart, BootEnd(Ok(())), SetupStart];
    BootStage(mode, target);
    UpdateAllConcat(mode, Blank(target), boot, [SetupEnd(Ok(()))]);
    UpdateOne(mode, SettingUpPage(target), SetupEnd(Ok(())));
    UpdateAllConcat(mode, Blank(target), boot + [SetupEnd(Ok(()))], [CommandStart]);
    UpdateOne(mode, SettingUpPage(target), CommandStart);
    assert boot + [SetupEnd(Ok(()))] + [CommandStart]
        == [BootStart, BootEnd(Ok(())), SetupStart, SetupEnd(Ok(())), CommandStart];
  }

  /** The page when only the last control message is missing. */
  function BeforeLastWord(target: string, f: Fate): Page {
    match f
    case BootFails(false, _) => Blank(target)
    case BootFails(true, _) => BootingPage(target)
    case SetupFails(_) => SettingUpPage(target)
    case Shell => SettingUpPage(target)
    case _ => RunningPage(target)
  }

  lemma PageBeforeLastWord(mode: Mode, target: string, f: Fate)
    ensures var c := ControlsOf(f);
      UpdateAll(mode, Blank(target), c[..|c| - 1]) == BeforeLastWord(target, f)
  {
    var c := ControlsOf(f);
    BootStage(mode, target);
    SetupStage(mode, target);
    match f {
      case BootFails(false, _) => assert c[..|c| - 1] == [];
      case BootFails(true, _) => assert c[..|c| - 1] == [BootStart];
      case SetupFails(_) => assert c[..|c| - 1] == [BootStart, BootEnd(Ok(())), SetupStart];
      case Shell => assert c[..|c| - 1] == [BootStart, BootEnd(Ok(())), SetupStart];
      case CommandFails(_) =>
        assert c[..|c| - 1] == [BootStart, BootEnd(Ok(())), SetupStart, SetupEnd(Ok(())), CommandStart];
      case Exits(_) =>
        assert c[..|c| - 1] == [BootStart, BootEnd(Ok(())), SetupStart, SetupEnd(Ok(())), CommandStart];
    }
  }

  lemma LastWordOnPage(mode: Mode, target: string, f: Fate)
    ensures Skeleton(Update(mode, BeforeLastWord(target, f), LastWord(f))) == PageOf(mode, target, f)
  {
    var p := Update(mode, BeforeLastWord(target, f), LastWord(f));
    var q := PageOf(mode, target, f);
    assert Bare(p.done) == q.done;
  }

  /** Whatever lines arrive and however the threads interleave, the final page of a
      completed run is that of its fate. */
  lemma FinalPage(env: Env, schedule: seq<Action>, mode: Mode, target: string)
    requires Allowed(env, schedule) && After(env, schedule).channel.hungUp
    ensures Skeleton(UpdateAll(mode, Blank(target), After(env, schedule).channel.received))
         == PageOf(mode, target, FateOf(env))
  {
    ControlLanguage(env, schedule);
    OnlyControlsMatter(mode, Blank(target), Blank(target), After(env, schedule).channel.received);
    PageOfControls(mode, target, FateOf(env));
  }

  lemma PageOfControls(mode: Mode, target: string, f: Fate)
    ensures Skeleton(UpdateAll(mode, Blank(target), ControlsOf(f))) == PageOf(mode, target, f)
  {
    var c := ControlsOf(f);
    PageBeforeLastWord(mode, target, f);
    SkeletonAfter(mode, Blank(target), c[..|c| - 1], LastWord(f), BeforeLastWord(target, f));
    assert c[..|c| - 1] + [LastWord(f)] == c;
    LastWordOnPage(mode, target, f);
  }

  /** The verdict is independent of the interleaving and of every line streamed: none
      exactly if some call fails, 0 for an interactive run, and otherwise the exit
      code cast to 32 bits, which is the exit code exactly if that fits. */
  lemma VerdictIndependent(env: Env, schedule: seq<Action>, mode: Mode, target: string)
    requires Allowed(env, schedule) && After(env, schedule).channel.hungUp
    ensures var rc := Verdict(mode, target, After(env, schedule).channel.received);
      && rc == VerdictOf(FateOf(env))
      && (FateOf(env).Exits? ==>
            rc.Some? && (rc.value as int == FateOf(env).code <==> FitsI32(FateOf(env).code)))
  {
    FinalPage(env, schedule, mode, target);
    if FateOf(env).Exits? {
      Wrap32Faithful(FateOf(env).code);
    }
  }

  // ------------------------------------------------------ the single-line assertion

  /** The lines the main thread gets from the guest are single lines. */
  predicate PrintableEnv(env: Env) {
    && (forall l | l in env.setupLines :: AtMostOneLine(l))
    && (env.launch.None? ==> SingleLines(env.command))
  }

  predicate AllPrintable(s: Script) {
    match s
    case End => true
    case Say(m, rest) => m.Printable() && AllPrintable(rest)
  }

  lemma {:induction false} SetupsPrintable(lines: seq<string>, rest: Script)
    requires (forall l | l in lines :: AtMostOneLine(l)) && AllPrintable(rest)
    ensures AllPrintable(SaySetups(lines, rest))
  {
    if lines != [] {
      assert lines[0] in lines;
      SetupsPrintable(lines[1..], rest);
    }
  }

  lemma {:induction false} CommandsPrintable(lines: seq<string>, rest: Script)
    requires (forall l | l in lines :: AtMostOneLine(l)) && AllPrintable(rest)
    ensures AllPrintable(SayCommands(lines, rest))
  {
    if lines != [] {
      assert lines[0] in lines;
      CommandsPrintable(lines[1..], rest);
    }
  }

  lemma {:induction false} PlayPrintable(s: Script)
    requires AllPrintable(s)
    ensures forall m | m in Play(s) :: m.Printable()
  {
    match s {
      case End =>
      case Say(_, rest) => PlayPrintable(rest);
    }
  }

  lemma {:induction false} ReaderPrintable(s: seq<Unit>, trim: Trim)
    ensures forall m | m in Play(ReaderScript(s, trim)) :: m.Printable()
  {
    ReaderSendsStreamLines(s, trim);
    StreamedLinesAreSingle(s, trim);
    var lines := StreamLines(s, trim);
    forall m | m in Wrapped(KindOf(trim), lines) ensures m.Printable() {
      var i :| 0 <= i < |lines| && Wrapped(KindOf(trim), lines)[i] == m;
      assert lines[i] in lines;
    }
  }

  lemma RunPrintable(env: Env)
    requires PrintableEnv(env)
    ensures AllPrintable(RunScript(env))
  {
    if env.launch.None? && env.command.Exited? {
      CommandsPrintable(env.command.report, Say(CommandEnd(Ok(env.command.code)), End));
    }
  }

  lemma SetupPrintable(env: Env)
    requires PrintableEnv(env)
    ensures AllPrintable(SetupScript(env))
  {
    RunPrintable(env);
    SetupsPrintable(env.setupLines, AfterMounts(env));
  }

  lemma MainPrintable(env: Env)
    requires PrintableEnv(env)
    ensures AllPrintable(MainScript(env))
  {
    SetupPrintable(env);
    SpawnOutcome(env);
  }

  lemma PrefixMembers(a: seq<Output>, b: seq<Output>, c: seq<Output>)
    requires a + b == c && forall m | m in c :: m.Printable()
    ensures forall m | m in a :: m.Printable()
  {
    forall m | m in a ensures m.Printable() { assert m in a + b; }
  }

  lemma SendersPrintable(env: Env, s: State, t: Thread)
    requires Invariant(env, s) && PrintableEnv(env)
    ensures forall m | m in From(s.channel.log, t) :: m.Printable()
  {
    match t {
      case Main =>
        MainPrintable(env);
        PlayPrintable(MainScript(env));
        PrefixMembers(From(s.channel.log, Main), Play(Remaining(env, s.at.pc)), Play(MainScript(env)));
      case BootThread =>
        ReaderPrintable(env.bootLog, PopLast);
        PrefixMembers(From(s.channel.log, BootThread), Play(Unread(s.at.boot, env.bootLog, PopLast)),
                      Play(ReaderScript(env.bootLog, PopLast)));
      case CommandThread =>
        ReaderPrintable(env.commandLog, TrimNewline);
        PrefixMembers(From(s.channel.log, CommandThread), Play(Unread(s.at.command, env.commandLog, TrimNewline)),
                      Play(ReaderScript(env.commandLog, TrimNewline)));
    }
  }

  /** The assertion of `print_line` never fires: whatever the streams hold and whatever
      the guest commands print, every line received is a single line. */
  lemma AssertionNeverFires(env: Env, schedule: seq<Action>)
    requires Allowed(env, schedule) && PrintableEnv(env)
    ensures forall m | m in After(env, schedule).channel.received :: m.Printable()
  {
    InvariantHolds(env, schedule);
    var ch := After(env, schedule).channel;
    forall m | m in ch.received ensures m.Printable() {
      var i :| 0 <= i < |ch.received| && ch.received[i] == m;
      ReceivedFromLog(env, schedule, i);
      assert ch.log[i] in ch.log;
      FromMembers(ch.log, ch.log[i].sender, ch.log[i].msg);
      SendersPrintable(env, After(env, schedule), ch.log[i].sender);
    }
  }

  // ---------------------------------------------------------- a list of targets

  /** A completed run, as the UI thread of its target sees it. */
  ghost predicate CompletedRun(env: Env, run: TargetRun) {
    exists schedule: seq<Action> :: Allowed(env, schedule) && HangsUpWith(env, schedule, run)
  }

  ghost predicate HangsUpWith(env: Env, schedule: seq<Action>, run: TargetRun)
    requires Allowed(env, schedule)
  {
    After(env, schedule).channel.hungUp && After(env, schedule).channel.received == run.received
  }

  /** The run was interactive, or its exit code is 0 in its low 32 bits. */
  predicate Passes(f: Fate) {
    f.Shell? || (f.Exits? && f.code % 0x1_0000_0000 == 0)
  }

  lemma PassesIff(f: Fate)
    ensures VerdictOf(f) == Some(0) <==> Passes(f)
    ensures f.Exits? ==> VerdictOf(f).Some? && (VerdictOf(f).value as int - f.code) % 0x1_0000_0000 == 0
    ensures f.Exits? && -0x8000_0000 <= f.code < 0x8000_0000 ==> VerdictOf(f).value as int == f.code
  {
    if f.Exits? { Wrap32Faithful(f.code); }
  }

  lemma FailedFates(envs: seq<Env>)
    ensures (set i | 0 <= i < |envs| && VerdictOf(FateOf(envs[i])) != Some(0))
         == (set i | 0 <= i < |envs| && !Passes(FateOf(envs[i])))
  {
    forall i | 0 <= i < |envs| {
      PassesIff(FateOf(envs[i]));
    }
  }

  lemma CompletedVerdict(env: Env, run: TargetRun, mode: Mode)
    requires PrintableEnv(env) && CompletedRun(env, run)
    ensures forall m | m in run.received :: m.Printable()
    ensures Verdict(mode, run.name, run.received) == VerdictOf(FateOf(env))
  {
    var schedule: seq<Action> :| Allowed(env, schedule) && HangsUpWith(env, schedule, run);
    AssertionNeverFires(env, schedule);
    VerdictIndependent(env, schedule, mode, run.name);
  }

  lemma FailedRuns(mode: Mode, runs: seq<TargetRun>, envs: seq<Env>)
    requires |runs| == |envs|
    requires forall i | 0 <= i < |runs| ::
      Verdict(mode, runs[i].name, runs[i].received) == VerdictOf(FateOf(envs[i]))
    ensures (set i | 0 <= i < |runs| && Verdict(mode, runs[i].name, runs[i].received) != Some(0))
         == (set i | 0 <= i < |runs| && !Passes(FateOf(envs[i])))
  {
    FailedFates(envs);
    assert (set i | 0 <= i < |runs| && Verdict(mode, runs[i].name, runs[i].received) != Some(0))
        == set i | 0 <= i < |envs| && VerdictOf(FateOf(envs[i])) != Some(0);
  }

  /** The exit code of the program for a sole target: that of its command, as far as 32
      bits hold it, 0 for an interactive run, and 69 if a call failed. */
  predicate ExitCodeOf(f: Fate, rc: i32) {
    match f
    case Shell => rc == 0
    case Exits(code) =>
      (rc as int - code) % 0x1_0000_0000 == 0 && (-0x8000_0000 <= code < 0x8000_0000 ==> rc as int == code)
    case _ => rc == 69
  }

  /** `Ui::run` over completed protocol runs: the exit code of the whole program depends
      on the fates alone. */
  method RunTargets(term: Term, runs: seq<TargetRun>, showCmd: bool, backtrace: string, ghost envs: seq<Env>)
    returns (rc: i32)
    requires |runs| == |envs| < 0x8000_0000
    requires forall i | 0 <= i < |runs| :: PrintableEnv(envs[i]) && CompletedRun(envs[i], runs[i])
    modifies term
    ensures |runs| == 1 ==> ExitCodeOf(FateOf(envs[0]), rc)
    ensures |runs| != 1 ==> rc as int == |set i | 0 <= i < |runs| && !Passes(FateOf(envs[i]))|
  {
    var mode := Mode(term.enabled, showCmd, backtrace);
    forall i | 0 <= i < |runs|
      ensures (forall m | m in runs[i].received :: m.Printable())
           && Verdict(mode, runs[i].name, runs[i].received) == VerdictOf(FateOf(envs[i]))
    {
      CompletedVerdict(envs[i], runs[i], mode);
    }
    forall run, m | run in runs && m in run.received ensures m.Printable() {
      var i :| 0 <= i < |runs| && runs[i] == run;
    }
    FailedRuns(mode, runs, envs);
    if |runs| == 1 { PassesIff(FateOf(envs[0])); }
    rc := Ui.Run(term, runs, showCmd, backtrace);
  }
}
