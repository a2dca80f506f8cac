/** What every step of the protocol keeps. Each thread's messages so far, followed by
    those it has still to send, are what the world's answers prescribe for it. */
module Invariants {
  import opened Messages
  import opened Streams
  import opened Protocol

  // ------------------------------------------------------------ log projections

  /** The messages of one thread, in the order it sent them. */
  function From(log: seq<Sent>, t: Thread): seq<Output> {
    if log == [] then []
    else
      var n := |log| - 1;
      From(log[..n], t) + if log[n].sender == t then [log[n].msg] else []
  }

  /** All messages, in channel order. */
  function AllSent(log: seq<Sent>): (r: seq<Output>)
    ensures |r| == |log|
    ensures forall i | 0 <= i < |log| :: r[i] == log[i].msg
  {
    if log == [] then []
    else AllSent(log[..|log| - 1]) + [log[|log| - 1].msg]
  }

  function Opt(msg: Option<Output>): seq<Output> {
    match msg
    case None => []
    case Some(m) => [m]
  }

  lemma {:induction false} FromConcat(a: seq<Sent>, b: seq<Sent>, t: Thread)
    ensures From(a + b, t) == From(a, t) + From(b, t)
  {
    if b == [] {
      assert a + b == a;
    } else {
      var n := |b| - 1;
      assert (a + b)[..|a| + n] == a + b[..n] && (a + b)[|a| + n] == b[n];
      FromConcat(a, b[..n], t);
    }
  }

  lemma {:induction false} FromMembers(log: seq<Sent>, t: Thread, m: Output)
    ensures Sent(t, m) in log <==> m in From(log, t)
  {
    if log != [] {
      var n := |log| - 1;
      assert log == log[..n] + [log[n]];
      FromMembers(log[..n], t, m);
    }
  }

  lemma PostFrom(ch: Channel, t: Thread, msg: Option<Output>, u: Thread)
    ensures From(Post(ch, t, msg).log, u) == From(ch.log, u) + if t == u then Opt(msg) else []
  {
    if msg.Some? {
      assert (ch.log + [Sent(t, msg.value)])[..|ch.log|] == ch.log;
    }
  }

  lemma PostAllSent(ch: Channel, t: Thread, msg: Option<Output>)
    ensures AllSent(Post(ch, t, msg).log) == AllSent(ch.log) + Opt(msg)
    ensures Post(ch, t, msg).queue == ch.queue + Opt(msg)
  {
    if msg.Some? {
      assert (ch.log + [Sent(t, msg.value)])[..|ch.log|] == ch.log;
    }
  }

  // --------------------------------------------------------- prescribed scripts

  /** The messages a thread is to send, in order. */
  datatype Script = End | Say(head: Output, tail: Script)

  function Play(s: Script): seq<Output> {
    match s
    case End => []
    case Say(m, rest) => [m] + Play(rest)
  }

  function Prefix(msg: Option<Output>, rest: Script): Script {
    match msg
    case None => rest
    case Some(m) => Say(m, rest)
  }

  function SaySetups(lines: seq<string>, rest: Script): Script {
    if lines == [] then rest else Say(Setup(lines[0]), SaySetups(lines[1..], rest))
  }

  function SayCommands(lines: seq<string>, rest: Script): Script {
    if lines == [] then rest else Say(Command(lines[0]), SayCommands(lines[1..], rest))
  }

  function PollScript(env: Env): Script {
    match env.command
    case Failed => Say(CommandEnd(Err(env.commandError)), End)
    case Exited(report, code) => SayCommands(report, Say(CommandEnd(Ok(code)), End))
  }

  function CommandScript(env: Env): Script {
    match env.launch
    case Some(e) => Say(CommandEnd(Err(e)), End)
    case None => PollScript(env)
  }

  function RunScript(env: Env): Script {
    if env.interactive then End else Say(CommandStart, CommandScript(env))
  }

  /** What the main thread sends once all mounts were tried. */
  function AfterMounts(env: Env): Script
  {
    match env.setupError
    case Some(e) => Say(SetupEnd(Err(e)), End)
    case None => Say(SetupEnd(Ok(())), RunScript(env))
  }

  function SetupScript(env: Env): Script
  {
    Say(SetupStart, SaySetups(env.setupLines, AfterMounts(env)))
  }

  /** A call of `boot_vm`: its error ends the run. */
  function OrBootError(call: Option<string>, rest: Script): Script {
    match call
    case Some(e) => Say(BootEnd(Err(e)), End)
    case None => rest
  }

  function QgaScript(env: Env): Script
  {
    OrBootError(env.connectQga, Say(BootEnd(Ok(())), SetupScript(env)))
  }

  function HandshakeScript(env: Env): Script
  {
    OrBootError(env.handshake, QgaScript(env))
  }

  function CloneScript(env: Env): Script
  {
    OrBootError(env.cloneQmp, HandshakeScript(env))
  }

  function QmpScript(env: Env): Script
  {
    OrBootError(env.connectQmp, CloneScript(env))
  }

  function WaitScript(env: Env): Script
  {
    OrBootError(env.waitForQemu, QmpScript(env))
  }

  function SpawnScript(env: Env): Script
  {
    OrBootError(env.spawn, WaitScript(env))
  }

  /** Everything the main thread sends in a run. */
  function MainScript(env: Env): Script
  {
    OrBootError(env.setupQemu, Say(BootStart, SpawnScript(env)))
  }

  /** What the main thread has still to send. */
  function Remaining(env: Env, pc: PC): Script
  {
    match pc
    case SettingUp => MainScript(env)
    case NotSetUp(e) => Say(BootEnd(Err(e)), End)
    case BootStarting => Say(BootStart, SpawnScript(env))
    case Spawning => SpawnScript(env)
    case WaitingForQemu => WaitScript(env)
    case ConnectingQmp => QmpScript(env)
    case CloningQmp => CloneScript(env)
    case Handshaking => HandshakeScript(env)
    case ReadingStderr(e) => Say(BootEnd(Err(e)), End)
    case ConnectingQga => QgaScript(env)
    case Booted => Say(BootEnd(Ok(())), SetupScript(env))
    case BootCleanup(e) => Say(BootEnd(Err(e)), End)
    case NotBooted(e) => Say(BootEnd(Err(e)), End)
    case SetupStarting => SetupScript(env)
    case Mounting(lines) => SaySetups(lines, AfterMounts(env))
    case CommandStarting => Say(CommandStart, CommandScript(env))
    case Launching => CommandScript(env)
    case Polling => PollScript(env)
    case Reporting(lines, code) => SayCommands(lines, Say(CommandEnd(Ok(code)), End))
    case CommandDone(r) => Say(CommandEnd(r), End)
    case _ => End
  }

  /** The calls of a run before QEMU could have been spawned. */
  predicate BeforeSpawn(pc: PC) {
    pc.SettingUp? || pc.NotSetUp? || pc.BootStarting? || pc.Spawning?
  }

  /** The main thread is setting up or booting. */
  predicate Booting(pc: PC) {
    BeforeSpawn(pc) || pc.WaitingForQemu? || pc.ConnectingQmp? || pc.CloningQmp? || pc.Handshaking?
    || pc.ReadingStderr? || pc.ConnectingQga? || pc.Booted? || pc.BootCleanup? || pc.NotBooted?
  }

  lemma BootStaysOnCourse(env: Env, c: Control)
    requires Booting(c.pc)
    ensures var m := MainMove(env, c); Remaining(env, c.pc) == Prefix(m.msg, Remaining(env, m.to.pc))
  {
  }

  lemma RunStaysOnCourse(env: Env, c: Control)
    requires !Booting(c.pc)
    ensures var m := MainMove(env, c); Remaining(env, c.pc) == Prefix(m.msg, Remaining(env, m.to.pc))
  {
  }

  /** Each step of the main thread sends the head of what remains, or nothing. */
  lemma MainStaysOnCourse(env: Env, c: Control)
    ensures var m := MainMove(env, c); Remaining(env, c.pc) == Prefix(m.msg, Remaining(env, m.to.pc))
  {
    if Booting(c.pc) { BootStaysOnCourse(env, c); } else { RunStaysOnCourse(env, c); }
  }

  /** Everything a reader sends for a stream. */
  function ReaderScript(s: seq<Unit>, trim: Trim): Script
    decreases |s|
  {
    if s == [] then End else Prefix(ReadMessage(s, trim), ReaderScript(s[|Chunk(s)|..], trim))
  }

  /** What a reader has still to send. */
  function Unread(r: Reader, whole: seq<Unit>, trim: Trim): Script {
    match r
    case NotStarted => ReaderScript(whole, trim)
    case Reading(rest) => ReaderScript(rest, trim)
    case Closed => End
  }

  // ----------------------------------------------------------------- invariants

  /** Nothing is lost, duplicated or reordered in the channel. */
  ghost predicate Conserved(s: State) {
    && s.channel.received + s.channel.queue == AllSent(s.channel.log)
    && (s.channel.hungUp ==> s.channel.queue == [] && s.at.handles == {})
  }

  /** A thread has sent the part of `script` that it has not still to send. */
  ghost predicate OnCourse(log: seq<Sent>, t: Thread, unsent: Script, script: Script) {
    From(log, t) + Play(unsent) == Play(script)
  }

  ghost predicate AllOnCourse(env: Env, s: State)
  {
    && OnCourse(s.channel.log, Main, Remaining(env, s.at.pc), MainScript(env))
    && OnCourse(s.channel.log, BootThread, Unread(s.at.boot, env.bootLog, PopLast),
                ReaderScript(env.bootLog, PopLast))
    && OnCourse(s.channel.log, CommandThread, Unread(s.at.command, env.commandLog, TrimNewline),
                ReaderScript(env.commandLog, TrimNewline))
  }

  /** A sender is live exactly as long as its owner can still send. */
  ghost predicate HandlesLive(c: Control) {
    && (RunOne in c.handles <==> c.pc != Finished)
    && (InQemu in c.handles <==> !(c.pc.NotSetUp? || c.pc.DroppingUpdates? || c.pc.Finished?))
    && (InBootReader in c.handles <==> c.boot.Reading?)
    && (InCommandReader in c.handles <==> c.command.Reading?)
  }

  /** The main thread is past every wait for QEMU and every cleanup. */
  predicate Ending(pc: PC) {
    pc.DroppingQemu? || pc.DroppingUpdates? || pc.Finished?
  }

  /** QEMU is spawned unless a call before that fails; its stdout is read in every run
      that spawns it non-interactively; it is dead once the main thread has cleaned up. */
  ghost predicate ChildTracked(env: Env, c: Control) {
    && (c.child.Unspawned? <==> BeforeSpawn(c.pc) || env.setupQemu.Some? || env.spawn.Some?)
    && (env.setupQemu.Some? ==> c.pc.SettingUp? || c.pc.NotSetUp? || Ending(c.pc))
    && (env.spawn.Some? ==> BeforeSpawn(c.pc) || c.pc.NotBooted? || Ending(c.pc))
    && (c.pc.NotSetUp? ==> env.setupQemu.Some?)
    && (c.boot.NotStarted? <==> c.child.Unspawned? || env.interactive)
    && (env.reaps && (c.pc.NotBooted? || Ending(c.pc)) ==> c.child.Unspawned? || c.child.Reaped?)
  }

  predicate BeforeLaunch(pc: PC) {
    Booting(pc) || pc.SetupStarting? || pc.Mounting? || pc.InteractiveWait? || pc.CommandStarting? || pc.Launching?
  }

  /** Whether a run gets as far as launching the command in the guest. */
  predicate Launches(env: Env)
  {
    && env.setupQemu.None? && env.spawn.None? && env.waitForQemu.None? && env.connectQmp.None?
    && env.cloneQmp.None? && env.handshake.None? && env.connectQga.None?
    && env.setupError.None? && !env.interactive && env.launch.None?
  }

  /** The calls that have succeeded when the main thread is at `pc`. */
  predicate CallsPassed(env: Env, pc: PC)
  {
    var spawned := env.setupQemu.None? && env.spawn.None?;
    var qmp := spawned && env.waitForQemu.None? && env.connectQmp.None?;
    var shaken := qmp && env.cloneQmp.None? && env.handshake.None?;
    var booted := shaken && env.connectQga.None?;
    var mounted := booted && env.setupError.None?;
    match pc
    case BootStarting => env.setupQemu.None?
    case Spawning => env.setupQemu.None?
    case WaitingForQemu => spawned
    case ConnectingQmp => spawned && env.waitForQemu.None?
    case CloningQmp => qmp
    case Handshaking => qmp && env.cloneQmp.None?
    case ConnectingQga => shaken
    case ReadingStderr(_) => !booted
    case BootCleanup(_) => !booted
    case NotSetUp(_) => !booted
    case NotBooted(_) => !booted
    case Booted => booted
    case SetupStarting => booted
    case Mounting(_) => booted
    case InteractiveWait => mounted && env.interactive
    case CommandStarting => mounted && !env.interactive
    case Launching => mounted && !env.interactive
    case Polling => Launches(env)
    case Reporting(_, _) => Launches(env)
    case CommandDone(_) => mounted && !env.interactive
    case Syncing => mounted && !env.interactive
    case Quitting => mounted && !env.interactive
    case QuitWaiting => mounted && !env.interactive
    case FinalCleanup => booted
    case _ => true
  }

  /** The command's reader is started by exactly the runs that launch the command. */
  ghost predicate CommandTracked(env: Env, c: Control)
  {
    && CallsPassed(env, c.pc)
    && (c.command.NotStarted? <==> BeforeLaunch(c.pc) || !Launches(env))
  }

  predicate NoFailure(log: seq<Sent>) {
    forall x | x in log :: !x.msg.IsFailure()
  }

  predicate NoSetupEnd(log: seq<Sent>) {
    forall x | x in log :: !x.msg.SetupEnd?
  }

  predicate NoCommandEnd(log: seq<Sent>) {
    forall x | x in log :: !x.msg.CommandEnd?
  }

  /** What must have been sent, and what must not, before a message. */
  predicate InPlace(before: seq<Sent>, x: Sent) {
    match x.sender
    case BootThread => x.msg.Boot? && Sent(Main, BootStart) in before
    case CommandThread => x.msg.Command? && Sent(Main, CommandStart) in before
    case Main =>
      && !x.msg.Boot? && NoFailure(before)
      && (x.msg.Setup? ==> Sent(Main, SetupStart) in before && NoSetupEnd(before))
      && (x.msg.Command? ==> Sent(Main, CommandStart) in before && NoCommandEnd(before))
  }

  predicate Ordered(log: seq<Sent>) {
    log == [] ||
    var n := |log| - 1;
    Ordered(log[..n]) && InPlace(log[..n], log[n])
  }

  /** The main thread is past SetupEnd, or past CommandEnd, if it sends them at all. */
  predicate PastSetup(pc: PC) {
    !(Booting(pc) || pc.SetupStarting? || pc.Mounting?)
  }

  predicate PastCommand(pc: PC) {
    pc.Syncing? || pc.Quitting? || pc.QuitWaiting? || pc.FinalCleanup? || Ending(pc)
  }

  /** What has been sent when the main thread is at its program counter. */
  ghost predicate Announced(env: Env, log: seq<Sent>, c: Control) {
    && (NoFailure(log) || Remaining(env, c.pc) == End)
    && (NoSetupEnd(log) || PastSetup(c.pc))
    && (NoCommandEnd(log) || PastCommand(c.pc))
    && (!c.boot.NotStarted? || c.pc.Spawning? ==> Sent(Main, BootStart) in log)
    && (c.pc.Mounting? ==> Sent(Main, SetupStart) in log)
    && (!c.command.NotStarted? || c.pc.Launching? || c.pc.Polling? || c.pc.Reporting? ==>
          Sent(Main, CommandStart) in log)
  }

  ghost predicate LinesInPlace(env: Env, s: State) {
    Ordered(s.channel.log) && Announced(env, s.channel.log, s.at)
  }

  ghost predicate Invariant(env: Env, s: State)
  {
    && Conserved(s) && AllOnCourse(env, s) && HandlesLive(s.at)
    && ChildTracked(env, s.at) && CommandTracked(env, s.at) && LinesInPlace(env, s)
  }

  // --------------------------------------------------------------- preservation

  lemma PostKeepsConserved(s: State, t: Thread, m: Move)
    requires Conserved(s) && !s.channel.hungUp
    ensures Conserved(Perform(s, t, m))
  {
    PostAllSent(s.channel, t, m.msg);
    var a, b, c := s.channel.received, s.channel.queue, Opt(m.msg);
    assert a + (b + c) == (a + b) + c;
  }

  lemma ReceiveKeepsConserved(s: State)
    requires Conserved(s) && UiEnabled(s)
    ensures Conserved(s.(channel := Receive(s.channel)))
  {
    var a, b := s.channel.received, s.channel.queue;
    if b != [] {
      assert (a + [b[0]]) + b[1..] == a + b;
    }
  }

  /** A thread that sends the head of what it has still to send stays on course. */
  lemma SenderStaysOnCourse(ch: Channel, t: Thread, msg: Option<Output>, left: Script, script: Script)
    requires OnCourse(ch.log, t, Prefix(msg, left), script)
    ensures OnCourse(Post(ch, t, msg).log, t, left, script)
  {
    PostFrom(ch, t, msg, t);
    var a, b := From(ch.log, t), Play(left);
    assert Play(Prefix(msg, left)) == Opt(msg) + b;
    assert (a + Opt(msg)) + b == a + (Opt(msg) + b);
  }

  lemma OthersStayOnCourse(ch: Channel, t: Thread, msg: Option<Output>, u: Thread, unsent: Script, script: Script)
    requires OnCourse(ch.log, u, unsent, script) && t != u
    ensures OnCourse(Post(ch, t, msg).log, u, unsent, script)
  {
    PostFrom(ch, t, msg, u);
    assert From(ch.log, u) + [] == From(ch.log, u);
  }

  /** The only thing the main thread does to the readers is to start them. */
  lemma MainStartsReaders(env: Env, c: Control)
    requires ChildTracked(env, c) && CommandTracked(env, c)
    ensures var m := MainMove(env, c);
      && (m.to.boot == c.boot ||
          (c.pc.Spawning? && c.boot.NotStarted? && m.to.boot == Reading(env.bootLog)))
      && (m.to.command == c.command ||
          (c.pc.Launching? && c.command.NotStarted? && m.to.command == Reading(env.commandLog)))
  {
  }

  lemma MainKeepsCourses(env: Env, s: State)
    requires AllOnCourse(env, s)
    requires ChildTracked(env, s.at) && CommandTracked(env, s.at)
    ensures AllOnCourse(env, Perform(s, Main, MainMove(env, s.at)))
  {
    var m := MainMove(env, s.at);
    MainStaysOnCourse(env, s.at);
    MainStartsReaders(env, s.at);
    SenderStaysOnCourse(s.channel, Main, m.msg, Remaining(env, m.to.pc), MainScript(env));
    OthersStayOnCourse(s.channel, Main, m.msg, BootThread, Unread(s.at.boot, env.bootLog, PopLast),
                       ReaderScript(env.bootLog, PopLast));
    OthersStayOnCourse(s.channel, Main, m.msg, CommandThread, Unread(s.at.command, env.commandLog, TrimNewline),
                       ReaderScript(env.commandLog, TrimNewline));
  }

  lemma BootKeepsCourses(env: Env, s: State)
    requires AllOnCourse(env, s) && s.at.boot.Reading?
    ensures AllOnCourse(env, Perform(s, BootThread, BootMove(s.at)))
  {
    var m := BootMove(s.at);
    SenderStaysOnCourse(s.channel, BootThread, m.msg,
                        Unread(m.to.boot, env.bootLog, PopLast), ReaderScript(env.bootLog, PopLast));
    OthersStayOnCourse(s.channel, BootThread, m.msg, Main, Remaining(env, s.at.pc), MainScript(env));
    OthersStayOnCourse(s.channel, BootThread, m.msg, CommandThread,
                       Unread(s.at.command, env.commandLog, TrimNewline), ReaderScript(env.commandLog, TrimNewline));
  }

  lemma CommandKeepsCourses(env: Env, s: State)
    requires AllOnCourse(env, s) && s.at.command.Reading?
    ensures AllOnCourse(env, Perform(s, CommandThread, CommandMove(s.at)))
  {
    var m := CommandMove(s.at);
    SenderStaysOnCourse(s.channel, CommandThread, m.msg,
                        Unread(m.to.command, env.commandLog, TrimNewline), ReaderScript(env.commandLog, TrimNewline));
    OthersStayOnCourse(s.channel, CommandThread, m.msg, Main, Remaining(env, s.at.pc), MainScript(env));
    OthersStayOnCourse(s.channel, CommandThread, m.msg, BootThread, Unread(s.at.boot, env.bootLog, PopLast),
                       ReaderScript(env.bootLog, PopLast));
  }

  lemma MainKeepsHandles(env: Env, c: Control)
    requires MainEnabled(c) && HandlesLive(c)
    requires ChildTracked(env, c) && CommandTracked(env, c)
    ensures HandlesLive(MainMove(env, c).to)
  {
  }

  lemma MainKeepsChild(env: Env, c: Control)
    requires MainEnabled(c) && ChildTracked(env, c)
    ensures ChildTracked(env, MainMove(env, c).to)
  {
  }

  lemma MainKeepsCommand(env: Env, c: Control)
    requires MainEnabled(c) && CommandTracked(env, c)
    ensures CommandTracked(env, MainMove(env, c).to)
  {
  }

  lemma PostKeepsOrder(ch: Channel, t: Thread, msg: Option<Output>)
    requires Ordered(ch.log)
    requires msg.Some? ==> InPlace(ch.log, Sent(t, msg.value))
    ensures Ordered(Post(ch, t, msg).log)
  {
    if msg.Some? {
      assert (ch.log + [Sent(t, msg.value)])[..|ch.log|] == ch.log;
    }
  }

  /** Membership in the log after one move. */
  lemma PostMembers(ch: Channel, t: Thread, msg: Option<Output>)
    ensures forall x :: x in Post(ch, t, msg).log <==> x in ch.log || (msg.Some? && x == Sent(t, msg.value))
  {
  }

  /** What a move of the main thread says is in place. */
  lemma MainSpeaksInPlace(env: Env, log: seq<Sent>, c: Control)
    requires Announced(env, log, c)
    ensures var m := MainMove(env, c); m.msg.Some? ==> InPlace(log, Sent(Main, m.msg.value))
  {
    MainStaysOnCourse(env, c);
  }

  /** A thread that has nothing to say stays silent, and a failure is the last word. */
  lemma MainFallsSilent(env: Env, c: Control)
    requires CommandTracked(env, c)
    ensures var m := MainMove(env, c);
      && (Remaining(env, c.pc) == End ==> m.msg.None? && Remaining(env, m.to.pc) == End)
      && (m.msg.Some? && m.msg.value.IsFailure() ==> Remaining(env, m.to.pc) == End)
  {
    MainStaysOnCourse(env, c);
  }

  /** The end of a stage is said when leaving it, for good. */
  lemma MainLeavesStages(env: Env, c: Control)
    ensures var m := MainMove(env, c);
      && (PastSetup(c.pc) || (m.msg.Some? && m.msg.value.SetupEnd?) ==> PastSetup(m.to.pc))
      && (PastCommand(c.pc) || (m.msg.Some? && m.msg.value.CommandEnd?) ==> PastCommand(m.to.pc))
  {
  }

  /** How the moves that depend on a start being sent are reached. */
  lemma MainStartsStages(env: Env, c: Control)
    ensures var m := MainMove(env, c);
      && (m.to.pc.Spawning? ==> m.msg == Some(BootStart))
      && (m.to.pc.Launching? ==> m.msg == Some(CommandStart))
      && (m.to.pc.Mounting? ==> c.pc.Mounting? || m.msg == Some(SetupStart))
      && (m.to.pc.Polling? ==> c.pc.Launching?)
      && (m.to.pc.Reporting? ==> c.pc.Polling? || c.pc.Reporting?)
  {
  }

  lemma MainKeepsOrder(env: Env, s: State)
    requires LinesInPlace(env, s)
    requires ChildTracked(env, s.at) && CommandTracked(env, s.at)
    ensures LinesInPlace(env, Perform(s, Main, MainMove(env, s.at)))
  {
    var msg := MainMove(env, s.at).msg;
    MainSpeaksInPlace(env, s.channel.log, s.at);
    PostKeepsOrder(s.channel, Main, msg);
    PostMembers(s.channel, Main, msg);
    MainStartsReaders(env, s.at);
    MainFallsSilent(env, s.at);
    MainLeavesStages(env, s.at);
    MainStartsStages(env, s.at);
  }

  /** Readers' messages are lines of their kind, so they end nothing. */
  lemma ReaderKeepsOrder(env: Env, s: State, t: Thread, m: Move)
    requires LinesInPlace(env, s) && t != Main
    requires m.msg.Some? ==> InPlace(s.channel.log, Sent(t, m.msg.value))
    requires m.to.pc == s.at.pc
    requires m.to.boot.NotStarted? <==> s.at.boot.NotStarted?
    requires m.to.command.NotStarted? <==> s.at.command.NotStarted?
    ensures LinesInPlace(env, Perform(s, t, m))
  {
    PostKeepsOrder(s.channel, t, m.msg);
    PostMembers(s.channel, t, m.msg);
  }

  lemma MainKeepsInvariant(env: Env, s: State)
    requires MainEnabled(s.at) && Invariant(env, s)
    ensures Invariant(env, Perform(s, Main, MainMove(env, s.at)))
  {
    assert RunOne in s.at.handles;
    PostKeepsConserved(s, Main, MainMove(env, s.at));
    MainKeepsCourses(env, s);
    MainKeepsHandles(env, s.at);
    MainKeepsChild(env, s.at);
    MainKeepsCommand(env, s.at);
    MainKeepsOrder(env, s);
  }

  /** What a turn of a reader changes outside the channel. */
  ghost predicate ReaderTurn(c: Control, t: Thread, to: Control) {
    && to.pc == c.pc && to.child == c.child
    && (if t == BootThread then
          && to.command == c.command && c.boot.Reading? && !to.boot.NotStarted?
          && to.handles == if to.boot.Reading? then c.handles else c.handles - {InBootReader}
        else
          && to.boot == c.boot && c.command.Reading? && !to.command.NotStarted?
          && to.handles == if to.command.Reading? then c.handles else c.handles - {InCommandReader})
  }

  lemma ReaderKeepsControl(env: Env, c: Control, t: Thread, to: Control)
    requires ReaderTurn(c, t, to)
    requires HandlesLive(c) && ChildTracked(env, c) && CommandTracked(env, c)
    ensures HandlesLive(to) && ChildTracked(env, to) && CommandTracked(env, to)
  {
  }

  /** A turn of a reader that keeps it on course keeps everything. */
  lemma ReaderKeepsInvariant(env: Env, s: State, t: Thread, m: Move)
    requires Invariant(env, s) && t != Main && ReaderTurn(s.at, t, m.to) && s.at.handles != {}
    requires m.msg.Some? ==> InPlace(s.channel.log, Sent(t, m.msg.value))
    requires AllOnCourse(env, Perform(s, t, m))
    ensures Invariant(env, Perform(s, t, m))
  {
    PostKeepsConserved(s, t, m);
    ReaderKeepsOrder(env, s, t, m);
    ReaderKeepsControl(env, s.at, t, m.to);
  }

  lemma BootKeepsInvariant(env: Env, s: State)
    requires s.at.boot.Reading? && Invariant(env, s)
    ensures Invariant(env, Perform(s, BootThread, BootMove(s.at)))
  {
    assert InBootReader in s.at.handles;
    BootKeepsCourses(env, s);
    ReaderKeepsInvariant(env, s, BootThread, BootMove(s.at));
  }

  lemma CommandKeepsInvariant(env: Env, s: State)
    requires s.at.command.Reading? && Invariant(env, s)
    ensures Invariant(env, Perform(s, CommandThread, CommandMove(s.at)))
  {
    assert InCommandReader in s.at.handles;
    CommandKeepsCourses(env, s);
    ReaderKeepsInvariant(env, s, CommandThread, CommandMove(s.at));
  }

  lemma StepKeepsInvariant(env: Env, s: State, a: Action)
    requires Enabled(s, a) && Invariant(env, s)
    ensures Invariant(env, Next(env, s, a))
  {
    match a {
      case MainMoves => MainKeepsInvariant(env, s);
      case BootMoves => BootKeepsInvariant(env, s);
      case CommandMoves => CommandKeepsInvariant(env, s);
      case UiMoves => ReceiveKeepsConserved(s);
      case QemuExits =>
    }
  }

  lemma InitInvariant(env: Env)
    ensures Invariant(env, Init())
  {
  }

  /** The invariant holds after every schedule. */
  lemma {:induction false} InvariantHolds(env: Env, schedule: seq<Action>)
    requires Allowed(env, schedule)
    ensures Invariant(env, After(env, schedule))
  {
    if schedule == [] {
      InitInvariant(env);
    } else {
      var n := |schedule| - 1;
      InvariantHolds(env, schedule[..n]);
      StepKeepsInvariant(env, After(env, schedule[..n]), schedule[n]);
    }
  }
}
