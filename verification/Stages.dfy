/** The stages of a run that take place in the guest: the protocol sends there what
    `setup_vm` and `run_in_vm` send. */
module Stages {
  import opened Messages
  import opened Text
  import opened GuestExec
  import opened Mounts
  import opened MountTags
  import opened Protocol
  import opened Invariants
  import opened Runs
  import opened Screen
  import opened Verdicts

  /** The guest's part of `env`: its setup stage is what mounting with these answers of
      guest processes yields, and a command that is launched is the guest process `g`. */
  ghost predicate Realizes(env: Env, answers: seq<Answers>, g: Guest) {
    && (forall a | a in answers :: FromGuests(a))
    && env.setupLines == SetupLines(answers) && env.setupError == SetupError(answers)
    && (env.launch.None? ==> !g.refused && Returns(g, env.command))
  }

  /** Nothing sent from the guest can trip the single-line assertion. */
  lemma GuestIsPrintable(env: Env, answers: seq<Answers>, g: Guest)
    requires Realizes(env, answers, g)
    ensures PrintableEnv(env)
  {
    TriedLinesAreSingle(answers, |answers|);
    if env.launch.None? {
      ReturnsOneResult(g, env.command, env.command);
    }
  }

  /** SetupEnd(Ok) is received exactly by the runs that boot and in which every mount
      succeeds. */
  lemma SetupSucceeds(env: Env, schedule: seq<Action>, answers: seq<Answers>, g: Guest)
    requires Allowed(env, schedule) && After(env, schedule).channel.hungUp && Realizes(env, answers, g)
    ensures SetupEnd(Ok(())) in After(env, schedule).channel.received <==>
      env.setupQemu.None? && BootError(env).None? && forall a | a in answers :: Mounted(a)
  {
    var f, r := FateOf(env), After(env, schedule).channel.received;
    ControlLanguage(env, schedule);
    SetupSucceedsIff(answers);
    SetupEndOfFate(f);
    if SetupEnd(Ok(())) in r {
      ControlsKeepMembers(r, SetupEnd(Ok(())));
    }
  }

  lemma SetupEndOfFate(f: Fate)
    ensures SetupEnd(Ok(())) in ControlsOf(f) <==> !f.BootFails? && !f.SetupFails?
  {
    if !f.BootFails? {
      assert ControlsOf(f)[3] == if f.SetupFails? then LastWord(f) else SetupEnd(Ok(()));
    }
  }

  lemma {:induction false} PlaySetups(lines: seq<string>, rest: Script)
    ensures Play(SaySetups(lines, rest)) == Wrapped(SetupLine, lines) + Play(rest)
  {
    if lines == [] {
      assert Wrapped(SetupLine, lines) + Play(rest) == Play(rest);
    } else {
      PlaySetups(lines[1..], rest);
      assert Wrapped(SetupLine, lines) == [Setup(lines[0])] + Wrapped(SetupLine, lines[1..]);
    }
  }

  lemma {:induction false} PlayCommands(lines: seq<string>, rest: Script)
    ensures Play(SayCommands(lines, rest)) == Wrapped(CommandLine, lines) + Play(rest)
  {
    if lines == [] {
      assert Wrapped(CommandLine, lines) + Play(rest) == Play(rest);
    } else {
      PlayCommands(lines[1..], rest);
      assert Wrapped(CommandLine, lines) == [Command(lines[0])] + Wrapped(CommandLine, lines[1..]);
    }
  }

  /** What `run` sends after `setup_vm`, given what `run_in_vm` returned for the command. */
  function CommandMessages(env: Env): seq<Output> {
    if env.setupError.Some? then [SetupEnd(Err(env.setupError.value))]
    else if env.interactive then []
    else if env.launch.Some? then [CommandStart, CommandEnd(Err(env.launch.value))]
    else match env.command
      case Failed => [CommandStart, CommandEnd(Err(env.commandError))]
      case Exited(report, code) => [CommandStart] + Wrapped(CommandLine, report) + [CommandEnd(Ok(code))]
  }

  lemma PlayRun(env: Env)
    requires env.setupError.None?
    ensures Play(RunScript(env)) == CommandMessages(env)
  {
    if !env.interactive && env.launch.None? && env.command.Exited? {
      var end := Say(CommandEnd(Ok(env.command.code)), End);
      PlayCommands(env.command.report, end);
      assert Play(end) == [CommandEnd(Ok(env.command.code))];
      var lines := Wrapped(CommandLine, env.command.report);
      assert [CommandStart] + (lines + Play(end)) == [CommandStart] + lines + Play(end);
    }
  }

  function SetupEnding(env: Env): seq<Output> {
    if env.setupError.None? then [SetupEnd(Ok(()))] else []
  }

  lemma PlayAfterMounts(env: Env)
    ensures Play(AfterMounts(env)) == SetupEnding(env) + CommandMessages(env)
  {
    if env.setupError.None? { PlayRun(env); }
  }

  lemma PlaySetup(env: Env)
    ensures Play(SetupScript(env)) ==
      [SetupStart] + Wrapped(SetupLine, env.setupLines) + SetupEnding(env) + CommandMessages(env)
  {
    PlaySetups(env.setupLines, AfterMounts(env));
    PlayAfterMounts(env);
    PlayOneMore(SetupStart, SaySetups(env.setupLines, AfterMounts(env)),
                Wrapped(SetupLine, env.setupLines) + (SetupEnding(env) + CommandMessages(env)));
    var lines, end, after := Wrapped(SetupLine, env.setupLines), SetupEnding(env), CommandMessages(env);
    Associates([SetupStart], lines, end + after);
    Associates([SetupStart] + lines, end, after);
  }

  /** The setup part of the protocol's script plays what `SetupVm` sends. */
  lemma SetupPlays(env: Env, answers: seq<Answers>)
    requires env.setupLines == SetupLines(answers) && env.setupError == SetupError(answers)
    ensures Play(SetupScript(env)) == SetupMessages(answers) + CommandMessages(env)
  {
    PlaySetup(env);
    assert SetupMessages(answers) == [SetupStart] + Wrapped(SetupLine, env.setupLines) + SetupEnding(env);
  }

  lemma PlayBooted(env: Env)
    requires env.setupQemu.None? && BootError(env).None?
    ensures Play(MainScript(env)) == [BootStart, BootEnd(Ok(()))] + Play(SetupScript(env))
  {
    SpawnOutcome(env);
    var rest := Play(SetupScript(env));
    PlayOneMore(BootEnd(Ok(())), SetupScript(env), rest);
    PlayOneMore(BootStart, SpawnScript(env), [BootEnd(Ok(()))] + rest);
    assert [BootStart] + ([BootEnd(Ok(()))] + rest) == [BootStart, BootEnd(Ok(()))] + rest;
  }

  /** In every completed run that boots, the main thread sends the messages of
      `SetupVm`, and then those of the command. */
  lemma GuestStages(env: Env, schedule: seq<Action>, answers: seq<Answers>, g: Guest)
    requires Allowed(env, schedule) && After(env, schedule).channel.hungUp && Realizes(env, answers, g)
    requires env.setupQemu.None? && BootError(env).None?
    ensures From(After(env, schedule).channel.log, Main) ==
      [BootStart, BootEnd(Ok(()))] + (SetupMessages(answers) + CommandMessages(env))
  {
    Conservation(env, schedule);
    PlayBooted(env);
    SetupPlays(env, answers);
  }

  /** A completed run whose command is launched has the verdict of the guest process: its
      exit code, if that fits, and 0 if it has none. */
  lemma VerdictOfGuest(env: Env, schedule: seq<Action>, answers: seq<Answers>, g: Guest, mode: Mode, target: string)
    requires Allowed(env, schedule) && After(env, schedule).channel.hungUp && Realizes(env, answers, g)
    requires Launches(env) && env.command.Exited?
    ensures var rc := Verdict(mode, target, After(env, schedule).channel.received);
      && (g.status.exitcode.None? ==> rc == Some(0))
      && forall n: i32 | g.status.exitcode == Some(n as int) :: rc == Some(n)
  {
    CommandIsRunInVm(env, answers, g, env.command);
    ReturnsStatus(g, env.command);
    VerdictIndependent(env, schedule, mode, target);
  }

  /** What `RunInVm` returns for the guest process of the command decides the end of a
      run that gets there. */
  lemma CommandIsRunInVm(env: Env, answers: seq<Answers>, g: Guest, r: Exec)
    requires Realizes(env, answers, g) && Returns(g, r) && Launches(env)
    ensures FateOf(env) == if r.Exited? then Exits(r.code) else CommandFails(env.commandError)
    ensures CommandMessages(env) ==
      match r
      case Failed => [CommandStart, CommandEnd(Err(env.commandError))]
      case Exited(report, code) => [CommandStart] + Wrapped(CommandLine, report) + [CommandEnd(Ok(code))]
  {
    ReturnsOneResult(g, r, env.command);
  }
}
