/** Theorems about whole runs of the protocol, over every schedule: what is received,
    in which order, and that every run comes to an end. */
module Runs {
  import opened Messages
  import opened Streams
  import opened Protocol
  import opened Invariants

  // ----------------------------------------------------------------- run fates

  /** How a run ends: decided by the first call that fails. */
  datatype Fate =
    | BootFails(started: bool, err: string)
    | SetupFails(err: string)
    | Shell
    | CommandFails(err: string)
    | Exits(code: int)

  function OrElse(a: Option<string>, b: Option<string>): Option<string> {
    if a.Some? then a else b
  }

  function BootError(env: Env): Option<string> {
    OrElse(env.spawn, OrElse(env.waitForQemu, OrElse(env.connectQmp,
      OrElse(env.cloneQmp, OrElse(env.handshake, env.connectQga)))))
  }

  function FateOf(env: Env): Fate {
    if env.setupQemu.Some? then BootFails(false, env.setupQemu.value)
    else if BootError(env).Some? then BootFails(true, BootError(env).value)
    else if env.setupError.Some? then SetupFails(env.setupError.value)
    else if env.interactive then Shell
    else if env.launch.Some? then CommandFails(env.launch.value)
    else match env.command
      case Failed => CommandFails(env.commandError)
      case Exited(_, code) => Exits(code)
  }

  /** The last control message of a run. */
  function LastWord(f: Fate): Output {
    match f
    case BootFails(_, e) => BootEnd(Err(e))
    case SetupFails(e) => SetupEnd(Err(e))
    case Shell => SetupEnd(Ok(()))
    case CommandFails(e) => CommandEnd(Err(e))
    case Exits(code) => CommandEnd(Ok(code))
  }

  /** The control messages of a run, by fate. */
  function ControlsOf(f: Fate): seq<Output> {
    match f
    case BootFails(false, _) => [LastWord(f)]
    case BootFails(true, _) => [BootStart, LastWord(f)]
    case SetupFails(_) => [BootStart, BootEnd(Ok(())), SetupStart, LastWord(f)]
    case Shell => [BootStart, BootEnd(Ok(())), SetupStart, LastWord(f)]
    case _ => [BootStart, BootEnd(Ok(())), SetupStart, SetupEnd(Ok(())), CommandStart, LastWord(f)]
  }

  // ----------------------------------------- the controls of the main thread

  /** A script without its lines. */
  function ControlScript(s: Script): Script {
    match s
    case End => End
    case Say(m, rest) => if m.IsLine() then ControlScript(rest) else Say(m, ControlScript(rest))
  }

  lemma {:induction false} PlayControls(s: Script)
    ensures Play(ControlScript(s)) == Controls(Play(s))
  {
    match s {
      case End =>
      case Say(m, rest) =>
        PlayControls(rest);
        assert ([m] + Play(rest))[1..] == Play(rest);
    }
  }

  lemma {:induction false} SetupsAreLines(lines: seq<string>, rest: Script)
    ensures ControlScript(SaySetups(lines, rest)) == ControlScript(rest)
  {
    if lines != [] { SetupsAreLines(lines[1..], rest); }
  }

  lemma {:induction false} CommandsAreLines(lines: seq<string>, rest: Script)
    ensures ControlScript(SayCommands(lines, rest)) == ControlScript(rest)
  {
    if lines != [] { CommandsAreLines(lines[1..], rest); }
  }

  function LastOnly(f: Fate): Script {
    Say(LastWord(f), End)
  }

  lemma CommandControls(env: Env)
    requires env.setupQemu.None? && BootError(env).None? && env.setupError.None? && !env.interactive
    ensures ControlScript(CommandScript(env)) == LastOnly(FateOf(env))
  {
    if env.launch.None? && env.command.Exited? {
      CommandsAreLines(env.command.report, Say(CommandEnd(Ok(env.command.code)), End));
    }
  }

  lemma SetupControls(env: Env)
    requires env.setupQemu.None? && BootError(env).None?
    ensures ControlScript(SetupScript(env)) == AfterBoot(FateOf(env))
  {
    SetupsAreLines(env.setupLines, AfterMounts(env));
    if env.setupError.None? && !env.interactive { CommandControls(env); }
  }

  lemma SpawnOutcome(env: Env)
    ensures SpawnScript(env) == match BootError(env)
                                case Some(e) => Say(BootEnd(Err(e)), End)
                                case None => Say(BootEnd(Ok(())), SetupScript(env))
  {
  }

  lemma PlayOneMore(m: Output, s: Script, msgs: seq<Output>)
    requires Play(s) == msgs
    ensures Play(Say(m, s)) == [m] + msgs
  {
  }

  /** The fate decides the main thread's control messages. */
  lemma MainControls(env: Env)
    ensures Controls(Play(MainScript(env))) == ControlsOf(FateOf(env))
  {
    var f := FateOf(env);
    PlayControls(MainScript(env));
    SpawnOutcome(env);
    if f.BootFails? {
      PlayOneMore(LastWord(f), End, []);
      assert ControlScript(LastOnly(f)) == LastOnly(f);
      if f.started {
        PlayOneMore(BootStart, LastOnly(f), [LastWord(f)]);
        assert ControlScript(MainScript(env)) == Say(BootStart, LastOnly(f));
        assert ControlsOf(f) == [BootStart] + [LastWord(f)];
      }
    } else {
      SetupControls(env);
      PlayAfterBoot(f, ControlScript(MainScript(env)));
    }
  }

  function AfterBoot(f: Fate): Script {
    Say(SetupStart,
        if f.SetupFails? || f.Shell? then LastOnly(f)
        else Say(SetupEnd(Ok(())), Say(CommandStart, LastOnly(f))))
  }

  function ControlsAfterBoot(f: Fate): seq<Output> {
    if f.SetupFails? || f.Shell? then [SetupStart, LastWord(f)]
    else [SetupStart, SetupEnd(Ok(())), CommandStart, LastWord(f)]
  }

  lemma PlaySetupStage(f: Fate)
    ensures Play(AfterBoot(f)) == ControlsAfterBoot(f)
  {
    var s, msgs := LastOnly(f), [LastWord(f)];
    PlayOneMore(LastWord(f), End, []);
    if f.SetupFails? || f.Shell? {
      assert AfterBoot(f) == Say(SetupStart, s);
      PlayOneMore(SetupStart, s, msgs);
      assert [SetupStart] + msgs == ControlsAfterBoot(f);
    } else {
      assert AfterBoot(f) == Say(SetupStart, Say(SetupEnd(Ok(())), Say(CommandStart, s)));
      PlayOneMore(CommandStart, s, msgs);
      PlayOneMore(SetupEnd(Ok(())), Say(CommandStart, s), [CommandStart] + msgs);
      PlayOneMore(SetupStart, AfterBoot(f).tail, [SetupEnd(Ok(()))] + ([CommandStart] + msgs));
      assert [SetupStart] + ([SetupEnd(Ok(()))] + ([CommandStart] + msgs)) == ControlsAfterBoot(f);
    }
  }

  lemma PlayAfterBoot(f: Fate, script: Script)
    requires !f.BootFails? && script == Say(BootStart, Say(BootEnd(Ok(())), AfterBoot(f)))
    ensures Play(script) == ControlsOf(f)
  {
    PlaySetupStage(f);
    var after := ControlsAfterBoot(f);
    PlayOneMore(BootEnd(Ok(())), AfterBoot(f), after);
    PlayOneMore(BootStart, script.tail, [BootEnd(Ok(()))] + after);
    assert ControlsOf(f) == [BootStart] + ([BootEnd(Ok(()))] + after);
  }

  // -------------------------------------------------- conservation, hang-up

  lemma NothingUnsent(log: seq<Sent>, t: Thread, script: Script)
    requires OnCourse(log, t, End, script)
    ensures From(log, t) == Play(script)
  {
    assert From(log, t) + [] == From(log, t);
  }

  lemma NothingSent(log: seq<Sent>, t: Thread, script: Script)
    requires OnCourse(log, t, script, script)
    ensures From(log, t) == []
  {
    assert |From(log, t)| + |Play(script)| == |Play(script)|;
  }

  /** What a reader sends in a run: the lines of its stream, if it is started. */
  function ReaderSends(started: bool, stream: seq<Unit>, trim: Trim): seq<Output> {
    if started then Play(ReaderScript(stream, trim)) else []
  }

  /** QEMU is spawned with its stdout captured. */
  predicate StreamsBootLog(env: Env) {
    env.setupQemu.None? && env.spawn.None? && !env.interactive
  }

  lemma ReaderFinished(log: seq<Sent>, t: Thread, r: Reader, stream: seq<Unit>, trim: Trim)
    requires OnCourse(log, t, Unread(r, stream, trim), ReaderScript(stream, trim)) && !r.Reading?
    ensures From(log, t) == ReaderSends(r.Closed?, stream, trim)
  {
    if r.Closed? {
      NothingUnsent(log, t, ReaderScript(stream, trim));
    } else {
      NothingSent(log, t, ReaderScript(stream, trim));
    }
  }

  /** Everything that was sent is what the world's answers prescribe, by thread. */
  ghost predicate Complete(env: Env, log: seq<Sent>) {
    && From(log, Main) == Play(MainScript(env))
    && From(log, BootThread) == ReaderSends(StreamsBootLog(env), env.bootLog, PopLast)
    && From(log, CommandThread) == ReaderSends(Launches(env), env.commandLog, TrimNewline)
  }

  /** The receiver leaves its loop only when every thread is done and every message
      was handled, exactly once and in the order it was sent. */
  lemma Conservation(env: Env, schedule: seq<Action>)
    requires Allowed(env, schedule)
    ensures var s := After(env, schedule);
      && s.channel.received + s.channel.queue == AllSent(s.channel.log)
      && (s.channel.hungUp ==>
            && s.channel.received == AllSent(s.channel.log) && Complete(env, s.channel.log)
            && s.at.pc == Finished && !s.at.boot.Reading? && !s.at.command.Reading?)
  {
    InvariantHolds(env, schedule);
    HangUpIsComplete(env, After(env, schedule));
  }

  lemma HangUpIsComplete(env: Env, s: State)
    requires Invariant(env, s)
    ensures s.channel.hungUp ==>
      && s.channel.received == AllSent(s.channel.log) && Complete(env, s.channel.log)
      && s.at.pc == Finished && !s.at.boot.Reading? && !s.at.command.Reading?
  {
    if s.channel.hungUp {
      assert RunOne !in s.at.handles && InBootReader !in s.at.handles && InCommandReader !in s.at.handles;
      assert s.channel.received + [] == s.channel.received;
      NothingUnsent(s.channel.log, Main, MainScript(env));
      ReaderFinished(s.channel.log, BootThread, s.at.boot, env.bootLog, PopLast);
      ReaderFinished(s.channel.log, CommandThread, s.at.command, env.commandLog, TrimNewline);
    }
  }

  /** The variant that a reader sends, by its splitter. */
  function KindOf(trim: Trim): LineKind {
    match trim
    case PopLast => BootLine
    case TrimNewline => CommandLine
  }

  /** A reader's messages are its splitter's lines. */
  lemma {:induction false} ReaderSendsStreamLines(s: seq<Unit>, trim: Trim)
    ensures Play(ReaderScript(s, trim)) == Wrapped(KindOf(trim), StreamLines(s, trim))
    decreases |s|
  {
    if s != [] {
      var rest := s[|Chunk(s)|..];
      ReaderSendsStreamLines(rest, trim);
      var m, first, tail := ReadMessage(s, trim), LinesOfChunk(Chunk(s), trim), StreamLines(rest, trim);
      assert Opt(m) == Wrapped(KindOf(trim), first);
      WrappedConcat(KindOf(trim), first, tail);
      PlayPrefix(m, ReaderScript(rest, trim));
    }
  }

  lemma PlayPrefix(m: Option<Output>, rest: Script)
    ensures Play(Prefix(m, rest)) == Opt(m) + Play(rest)
  {
  }

  // -------------------------------------------------------- control language

  lemma {:induction false} OrderedAt(log: seq<Sent>, i: nat)
    requires Ordered(log) && i < |log|
    ensures InPlace(log[..i], log[i])
  {
    var n := |log| - 1;
    if i < n {
      OrderedAt(log[..n], i);
      assert log[..n][..i] == log[..i];
    }
  }

  /** All control messages are the main thread's. */
  lemma {:induction false} ControlsAreMains(log: seq<Sent>)
    requires Ordered(log)
    ensures Controls(AllSent(log)) == Controls(From(log, Main))
  {
    if log != [] {
      var n := |log| - 1;
      var last := if log[n].sender == Main then [log[n].msg] else [];
      ControlsAreMains(log[..n]);
      ControlsConcat(AllSent(log[..n]), [log[n].msg]);
      ControlsConcat(From(log[..n], Main), last);
    }
  }

  lemma PrefixOfControls(sent: seq<Output>, unsent: seq<Output>, all: seq<Output>)
    requires sent + unsent == all
    ensures Controls(sent) <= Controls(all)
  {
    ControlsConcat(sent, unsent);
  }

  /** The control messages received are always an initial part of the fate's list,
      and all of it once the channel has hung up. */
  lemma ControlLanguage(env: Env, schedule: seq<Action>)
    requires Allowed(env, schedule)
    ensures var s := After(env, schedule);
      && Controls(s.channel.received) <= ControlsOf(FateOf(env))
      && (s.channel.hungUp ==> Controls(s.channel.received) == ControlsOf(FateOf(env)))
  {
    InvariantHolds(env, schedule);
    var s := After(env, schedule);
    var log := s.channel.log;
    HangUpIsComplete(env, s);
    MainControls(env);
    ControlsAreMains(log);
    PrefixOfControls(From(log, Main), Play(Remaining(env, s.at.pc)), Play(MainScript(env)));
    PrefixOfControls(s.channel.received, s.channel.queue, AllSent(log));
  }

  /** The last word of a completed run is about the first call that failed, in its own
      words, or the exit code that the command returned. */
  lemma LastWordIsReceived(env: Env, schedule: seq<Action>)
    requires Allowed(env, schedule) && After(env, schedule).channel.hungUp
    ensures LastWordOf(env) in After(env, schedule).channel.received
  {
    ControlLanguage(env, schedule);
    var f := FateOf(env);
    LastWordIs(env);
    assert ControlsOf(f)[|ControlsOf(f)| - 1] == LastWord(f);
  }

  /** That word, spelled out. */
  function LastWordOf(env: Env): Output {
    if env.setupQemu.Some? then BootEnd(Err(env.setupQemu.value))
    else if env.spawn.Some? then BootEnd(Err(env.spawn.value))
    else if env.waitForQemu.Some? then BootEnd(Err(env.waitForQemu.value))
    else if env.connectQmp.Some? then BootEnd(Err(env.connectQmp.value))
    else if env.cloneQmp.Some? then BootEnd(Err(env.cloneQmp.value))
    else if env.handshake.Some? then BootEnd(Err(env.handshake.value))
    else if env.connectQga.Some? then BootEnd(Err(env.connectQga.value))
    else if env.setupError.Some? then SetupEnd(Err(env.setupError.value))
    else if env.interactive then SetupEnd(Ok(()))
    else if env.launch.Some? then CommandEnd(Err(env.launch.value))
    else if env.command.Failed? then CommandEnd(Err(env.commandError))
    else CommandEnd(Ok(env.command.code))
  }

  lemma LastWordIs(env: Env)
    ensures LastWord(FateOf(env)) == LastWordOf(env)
  {
  }

  // ---------------------------------------------------------- line placement

  /** Channel order is log order. */
  lemma ReceivedFromLog(env: Env, schedule: seq<Action>, i: nat)
    requires Allowed(env, schedule) && i < |After(env, schedule).channel.received|
    ensures var ch := After(env, schedule).channel;
      && i < |ch.log| && Ordered(ch.log) && ch.received[i] == ch.log[i].msg
      && (forall m :: m in ch.received[..i] <==> exists x :: x in ch.log[..i] && x.msg == m)
  {
    InvariantHolds(env, schedule);
    SameOrder(After(env, schedule).channel.log, After(env, schedule).channel.received,
              After(env, schedule).channel.queue, i);
  }

  lemma {:induction false} SameOrder(log: seq<Sent>, r: seq<Output>, queue: seq<Output>, i: nat)
    requires r + queue == AllSent(log) && i < |r|
    ensures i < |log| && r[i] == log[i].msg
    ensures forall m :: m in r[..i] <==> exists x :: x in log[..i] && x.msg == m
  {
    var all := AllSent(log);
    assert forall j | 0 <= j <= i :: r[j] == (r + queue)[j] == all[j] == log[j].msg;
    forall m | m in r[..i] ensures exists x :: x in log[..i] && x.msg == m {
      var j :| 0 <= j < i && r[j] == m;
      assert log[..i][j].msg == m;
    }
    forall x | x in log[..i] ensures x.msg in r[..i] {
      var j :| 0 <= j < i && log[j] == x;
      assert r[..i][j] == x.msg;
    }
  }

  /** Boot lines never precede BootStart; setup lines lie after SetupStart and before
      SetupEnd; command lines never precede CommandStart; those that the main thread
      sends itself precede CommandEnd. */
  lemma LinePlacement(env: Env, schedule: seq<Action>, i: nat)
    requires Allowed(env, schedule) && i < |After(env, schedule).channel.received|
    ensures var ch := After(env, schedule).channel; var r := ch.received;
      && i < |ch.log| && r[i] == ch.log[i].msg
      && (r[i].Boot? ==> BootStart in r[..i])
      && (r[i].Setup? ==> SetupStart in r[..i] && forall m | m in r[..i] :: !m.SetupEnd?)
      && (r[i].Command? ==> CommandStart in r[..i])
      && (r[i].Command? && ch.log[i].sender == Main ==> forall m | m in r[..i] :: !m.CommandEnd?)
  {
    ReceivedFromLog(env, schedule, i);
    OrderedAt(After(env, schedule).channel.log, i);
  }

  /** Every setup line is followed by the end of the setup stage. */
  lemma SetupEndFollows(env: Env, schedule: seq<Action>, i: nat)
    requires Allowed(env, schedule)
    requires var ch := After(env, schedule).channel; ch.hungUp && i < |ch.received| && ch.received[i].Setup?
    ensures var r := After(env, schedule).channel.received;
      exists j :: i < j < |r| && r[j].SetupEnd?
  {
    var r := After(env, schedule).channel.received;
    LinePlacement(env, schedule, i);
    assert r == r[..i] + r[i..];
    var end := SetupHasEnd(env, schedule);
    FoundLater(r, i, end);
  }

  lemma FoundLater(r: seq<Output>, i: nat, m: Output)
    requires i < |r| && m in r && m !in r[..i] && m != r[i]
    ensures exists j :: i < j < |r| && r[j] == m
  {
    assert r == r[..i] + [r[i]] + r[i + 1..];
    var j :| 0 <= j < |r[i + 1..]| && r[i + 1..][j] == m;
    assert r[i + 1 + j] == m;
  }

  lemma SetupHasEnd(env: Env, schedule: seq<Action>) returns (end: Output)
    requires Allowed(env, schedule)
    requires var ch := After(env, schedule).channel; ch.hungUp && SetupStart in ch.received
    ensures end in After(env, schedule).channel.received && end.SetupEnd?
  {
    var r := After(env, schedule).channel.received;
    ControlLanguage(env, schedule);
    ControlsKeepMembers(r, SetupStart);
    SetupStartThenEnd(FateOf(env));
    end :| end in Controls(r) && end.SetupEnd?;
  }

  lemma SetupStartThenEnd(f: Fate)
    ensures SetupStart in ControlsOf(f) ==> exists m :: m in ControlsOf(f) && m.SetupEnd?
  {
    if !f.BootFails? {
      assert ControlsOf(f)[3].SetupEnd?;
    }
  }

  // ------------------------------------------------------------ after a failure

  /** Once a failure is received only the readers' late lines can follow. */
  lemma OnlyLateLinesFollowFailure(env: Env, schedule: seq<Action>, i: nat, j: nat)
    requires Allowed(env, schedule)
    requires var r := After(env, schedule).channel.received; i < j < |r| && r[i].IsFailure()
    ensures var ch := After(env, schedule).channel;
      j < |ch.log| && ch.log[j].sender != Main && (ch.received[j].Boot? || ch.received[j].Command?)
  {
    ReceivedFromLog(env, schedule, j);
    var ch := After(env, schedule).channel;
    OrderedAt(ch.log, j);
    assert ch.received[..j][i] == ch.received[i];
    assert ch.received[i] in ch.received[..j];
  }

  // ---------------------------------------------------------------- termination

  function ReportSize(env: Env): nat {
    if env.command.Exited? then |env.command.report| else 0
  }

  /** A bound on the moves that the main thread has still to make. */
  function Rank(env: Env, pc: PC): nat {
    match pc
    case Finished => 0
    case DroppingUpdates => 1
    case DroppingQemu => 2
    case NotSetUp(_) => 2
    case FinalCleanup => 3
    case NotBooted(_) => 3
    case QuitWaiting => 4
    case InteractiveWait => 4
    case BootCleanup(_) => 4
    case ReadingStderr(_) => 5
    case Quitting => 5
    case Syncing => 6
    case CommandDone(_) => 7
    case Reporting(lines, _) => 8 + |lines|
    case Polling => 9 + ReportSize(env)
    case Launching => 10 + ReportSize(env)
    case CommandStarting => 11 + ReportSize(env)
    case Mounting(lines) => 12 + ReportSize(env) + |lines|
    case SetupStarting => 13 + ReportSize(env) + |env.setupLines|
    case Booted => 14 + ReportSize(env) + |env.setupLines|
    case ConnectingQga => 15 + ReportSize(env) + |env.setupLines|
    case Handshaking => 16 + ReportSize(env) + |env.setupLines|
    case CloningQmp => 17 + ReportSize(env) + |env.setupLines|
    case ConnectingQmp => 18 + ReportSize(env) + |env.setupLines|
    case WaitingForQemu => 19 + ReportSize(env) + |env.setupLines|
    case Spawning => 20 + ReportSize(env) + |env.setupLines|
    case BootStarting => 21 + ReportSize(env) + |env.setupLines|
    case SettingUp => 22 + ReportSize(env) + |env.setupLines|
  }

  function ReaderRank(r: Reader, stream: seq<Unit>): nat {
    match r
    case NotStarted => |stream| + 1
    case Reading(rest) => |rest| + 1
    case Closed => 0
  }

  /** Work left: moves of the senders count twice, since each may queue a message. */
  function WorkLeft(env: Env, s: State): nat {
    2 * Rank(env, s.at.pc) + 2 * ReaderRank(s.at.boot, env.bootLog)
    + 2 * ReaderRank(s.at.command, env.commandLog) + |s.channel.queue|
    + (if s.at.child.Dead() then 0 else 1) + (if s.channel.hungUp then 0 else 1)
  }

  lemma MainRankDrops(env: Env, c: Control)
    requires MainEnabled(c)
    ensures Rank(env, MainMove(env, c).to.pc) < Rank(env, c.pc)
  {
  }

  lemma DeadStaysDead(env: Env, c: Control)
    ensures c.child.Dead() ==> MainMove(env, c).to.child.Dead() || c.pc.Spawning?
  {
  }

  lemma MainWorkDrops(env: Env, s: State)
    requires Invariant(env, s) && MainEnabled(s.at)
    ensures WorkLeft(env, Perform(s, Main, MainMove(env, s.at))) < WorkLeft(env, s)
  {
    MainRankDrops(env, s.at);
    DeadStaysDead(env, s.at);
    MainStartsReaders(env, s.at);
    PostAllSent(s.channel, Main, MainMove(env, s.at).msg);
  }

  lemma ReaderWorkDrops(env: Env, s: State, t: Thread, m: Move)
    requires m.to.pc == s.at.pc && m.to.child == s.at.child
    requires ReaderRank(m.to.boot, env.bootLog) + ReaderRank(m.to.command, env.commandLog)
           < ReaderRank(s.at.boot, env.bootLog) + ReaderRank(s.at.command, env.commandLog)
    ensures WorkLeft(env, Perform(s, t, m)) < WorkLeft(env, s)
  {
    PostAllSent(s.channel, t, m.msg);
  }

  /** Every move leaves less work. */
  lemma WorkDrops(env: Env, s: State, a: Action)
    requires Invariant(env, s) && Enabled(s, a)
    ensures WorkLeft(env, Next(env, s, a)) < WorkLeft(env, s)
  {
    match a {
      case MainMoves => MainWorkDrops(env, s);
      case BootMoves => ReaderWorkDrops(env, s, BootThread, BootMove(s.at));
      case CommandMoves => ReaderWorkDrops(env, s, CommandThread, CommandMove(s.at));
      case UiMoves =>
      case QemuExits =>
    }
  }

  /** How many moves a run can make at most. */
  function Bound(env: Env): nat {
    50 + 2 * (ReportSize(env) + |env.setupLines| + |env.bootLog| + |env.commandLog|)
  }

  /** Every schedule is finite: its length is bounded by the size of the run's input. */
  lemma {:induction false} EveryRunEnds(env: Env, schedule: seq<Action>)
    requires Allowed(env, schedule)
    ensures |schedule| + WorkLeft(env, After(env, schedule)) <= Bound(env)
  {
    if schedule != [] {
      var n := |schedule| - 1;
      EveryRunEnds(env, schedule[..n]);
      InvariantHolds(env, schedule[..n]);
      WorkDrops(env, After(env, schedule[..n]), schedule[n]);
    }
  }

  /** The states in which the main thread waits for QEMU to exit by itself. */
  predicate WaitsForQemu(c: Control) {
    c.child.Running? && (c.pc.ReadingStderr? || c.pc.InteractiveWait? || c.pc.QuitWaiting?)
  }

  /** Someone can move until the channel hangs up. */
  lemma SomeoneCanMove(env: Env, s: State) returns (a: Action)
    requires Invariant(env, s) && !s.channel.hungUp
    ensures Enabled(s, a)
    ensures a == QemuExits ==> WaitsForQemu(s.at) || !env.reaps
  {
    var c := s.at;
    if MainEnabled(c) {
      a := MainMoves;
    } else if c.child.Running? {
      a := QemuExits;
    } else if c.boot.Reading? {
      a := BootMoves;
    } else if c.command.Reading? {
      a := CommandMoves;
    } else {
      assert c.handles == {} by {
        forall h | h in c.handles ensures h in {RunOne, InQemu, InBootReader, InCommandReader} {
          match h { case RunOne => case InQemu => case InBootReader => case InCommandReader => }
        }
      }
      a := UiMoves;
    }
  }

  /** A run that can go no further has hung up; and if killing and waiting succeed, the
      only thing that can keep it from hanging up is QEMU, still running, in one of
      the three states where the main thread waits for it. */
  lemma RunsHangUp(env: Env, schedule: seq<Action>)
    requires Allowed(env, schedule)
    ensures var s := After(env, schedule);
      && ((forall a :: !Enabled(s, a)) ==> s.channel.hungUp)
      && (env.reaps && (forall a | a != QemuExits :: !Enabled(s, a)) ==>
            s.channel.hungUp || WaitsForQemu(s.at))
  {
    InvariantHolds(env, schedule);
    var s := After(env, schedule);
    if !s.channel.hungUp {
      var a := SomeoneCanMove(env, s);
    }
  }

  lemma ExtendSchedule(env: Env, schedule: seq<Action>, a: Action) returns (longer: seq<Action>)
    requires Allowed(env, schedule) && Enabled(After(env, schedule), a)
    ensures longer == schedule + [a] && Allowed(env, longer)
    ensures After(env, longer) == Next(env, After(env, schedule), a)
    ensures After(env, schedule).channel.log <= After(env, longer).channel.log
  {
    longer := schedule + [a];
    assert longer[..|schedule|] == schedule;
  }

  /** Every run can be completed. */
  lemma {:induction false} CanComplete(env: Env, schedule: seq<Action>) returns (full: seq<Action>)
    requires Allowed(env, schedule)
    ensures Allowed(env, full) && After(env, full).channel.hungUp
    ensures After(env, schedule).channel.log <= After(env, full).channel.log
    decreases WorkLeft(env, After(env, schedule))
  {
    InvariantHolds(env, schedule);
    var s := After(env, schedule);
    if s.channel.hungUp {
      full := schedule;
    } else {
      var a := SomeoneCanMove(env, s);
      WorkDrops(env, s, a);
      var longer := ExtendSchedule(env, schedule, a);
      full := CanComplete(env, longer);
    }
  }

  // ------------------------------------------------------- QEMU does not outlive

  /** No run outlives its VM: when the main thread leaves `run`, when the channel hangs
      up, and before a boot failure is reported, QEMU was never spawned or is reaped. */
  lemma QemuIsReaped(env: Env, schedule: seq<Action>)
    requires Allowed(env, schedule) && env.reaps
    requires var s := After(env, schedule);
      Ending(s.at.pc) || s.channel.hungUp
      || (exists m :: m in s.channel.received && m.BootEnd? && m.IsFailure())
    ensures After(env, schedule).at.child ==
            if env.setupQemu.Some? || env.spawn.Some? then Unspawned else Reaped
  {
    InvariantHolds(env, schedule);
    var s := After(env, schedule);
    HangUpIsComplete(env, s);
    if m :| m in s.channel.received && m.BootEnd? && m.IsFailure() {
      BootFailureMeansEnding(env, schedule, m);
    }
    ReapedWhenEnding(env, s.at);
  }

  lemma ReapedWhenEnding(env: Env, c: Control)
    requires ChildTracked(env, c) && env.reaps && Ending(c.pc)
    ensures c.child == if env.setupQemu.Some? || env.spawn.Some? then Unspawned else Reaped
  {
  }

  lemma BootFailureMeansEnding(env: Env, schedule: seq<Action>, m: Output)
    requires Allowed(env, schedule)
    requires m in After(env, schedule).channel.received && m.BootEnd? && m.IsFailure()
    ensures Ending(After(env, schedule).at.pc)
  {
    var s := After(env, schedule);
    BootFailureIsFate(env, schedule, m);
    var i :| 0 <= i < |s.channel.received| && s.channel.received[i] == m;
    ReceivedFromLog(env, schedule, i);
    FailureLeavesNothing(env, schedule, s.channel.log[i]);
    NothingRemainsAfterBootFailure(env, s.at.pc);
  }

  lemma BootFailureIsFate(env: Env, schedule: seq<Action>, m: Output)
    requires Allowed(env, schedule)
    requires m in After(env, schedule).channel.received && m.BootEnd? && m.IsFailure()
    ensures FateOf(env).BootFails?
  {
    ControlLanguage(env, schedule);
    ControlsKeepMembers(After(env, schedule).channel.received, m);
    OnlyBootFailuresFailBoot(FateOf(env), Controls(After(env, schedule).channel.received), m);
  }

  lemma OnlyBootFailuresFailBoot(f: Fate, c: seq<Output>, m: Output)
    requires c <= ControlsOf(f) && m in c && m.BootEnd? && m.IsFailure()
    ensures f.BootFails?
  {
    assert m in ControlsOf(f);
  }

  lemma FailureLeavesNothing(env: Env, schedule: seq<Action>, x: Sent)
    requires Allowed(env, schedule)
    requires x in After(env, schedule).channel.log && x.msg.IsFailure()
    ensures var c := After(env, schedule).at; Remaining(env, c.pc) == End && CallsPassed(env, c.pc)
  {
    InvariantHolds(env, schedule);
  }

  lemma NothingRemainsAfterBootFailure(env: Env, pc: PC)
    requires FateOf(env).BootFails? && Remaining(env, pc) == End && CallsPassed(env, pc)
    ensures Ending(pc)
  {
    SpawnOutcome(env);
  }
}
