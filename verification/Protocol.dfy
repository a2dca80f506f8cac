/** The update protocol of one target as a transition system: the main thread
    (`run_one`, `run`, `boot_vm`, `setup_vm`, `run_command`), the two reader threads,
    QEMU, and the UI thread draining the channel. */
module Protocol {
  import opened Messages
  import opened Streams
  import opened GuestExec

  /** What the world answers to each fallible call of a run, and what QEMU writes.
      `Some(e)` means that the call fails with the error rendered as `e`. */
  datatype Env = Env(
    interactive: bool,            // the command is "-" and the target is not an image
    setupQemu: Option<string>,    // Vmtest::setup_qemu
    spawn: Option<string>,        // spawning QEMU
    bootLog: seq<Unit>,           // QEMU's stdout, up to its end
    waitForQemu: Option<string>,  // wait_for_qemu
    connectQmp: Option<string>,   // connecting to the QMP socket
    cloneQmp: Option<string>,     // cloning that stream
    handshake: Option<string>,    // the QMP handshake
    connectQga: Option<string>,   // QgaWrapper::new
    setupLines: seq<string>,      // the lines of the mount commands of setup_vm
    setupError: Option<string>,   // the first mount that fails
    launch: Option<string>,       // run_command, up to and including guest-exec
    commandLog: seq<Unit>,        // the virtio-serial stream, up to its end
    command: Exec,                // polling the command
    commandError: string,         // the error if polling fails
    quits: bool,                  // QEMU accepts the quit command
    reaps: bool)                  // inspecting, killing and waiting for QEMU succeed

  /** The program counter of the main thread. */
  datatype PC =
    | SettingUp
    | NotSetUp(err: string)
    | BootStarting
    | Spawning
    | WaitingForQemu
    | ConnectingQmp
    | CloningQmp
    | Handshaking
    | ReadingStderr(err: string)    // extract_child_stderr: blocks until QEMU is gone
    | ConnectingQga
    | Booted
    | BootCleanup(err: string)      // the guard of the child is dropped by boot_vm
    | NotBooted(err: string)
    | SetupStarting
    | Mounting(lines: seq<string>)
    | InteractiveWait
    | CommandStarting
    | Launching
    | Polling
    | Reporting(lines: seq<string>, code: int)
    | CommandDone(r: Result<int>)
    | Syncing
    | Quitting
    | QuitWaiting
    | FinalCleanup                  // the guard of the child is dropped by run
    | DroppingQemu
    | DroppingUpdates
    | Finished

  datatype Child = Unspawned | Running | Ended | Reaped {
    predicate Dead() { Ended? || Reaped? }
  }

  /** A reader thread, with the part of its stream that is still unread. */
  datatype Reader = NotStarted | Reading(rest: seq<Unit>) | Closed

  datatype Thread = Main | BootThread | CommandThread

  datatype Sent = Sent(sender: Thread, msg: Output)

  /** The long-lived senders: `run_one`'s, the one inside `Qemu`, and the readers'.
      Clones made inside the main thread's calls never outlive the one in `Qemu`. */
  datatype Handle = RunOne | InQemu | InBootReader | InCommandReader

  /** The senders' side: threads, QEMU and live senders. */
  datatype Control = Control(pc: PC, child: Child, boot: Reader, command: Reader, handles: set<Handle>)

  /** The channel and its receiver; `log` is the history of everything ever sent. */
  datatype Channel = Channel(log: seq<Sent>, queue: seq<Output>, received: seq<Output>, hungUp: bool)

  datatype State = State(at: Control, channel: Channel)

  function Init(): State {
    State(Control(SettingUp, Unspawned, NotStarted, NotStarted, {RunOne, InQemu}),
          Channel([], [], [], false))
  }

  /** One move of a thread: at most one message, and where the thread goes. */
  datatype Move = Move(msg: Option<Output>, to: Control)

  function Silently(to: Control): Move { Move(None, to) }

  function Saying(m: Output, to: Control): Move { Move(Some(m), to) }

  function Post(ch: Channel, sender: Thread, msg: Option<Output>): Channel {
    match msg
    case None => ch
    case Some(m) => ch.(log := ch.log + [Sent(sender, m)], queue := ch.queue + [m])
  }

  // ------------------------------------------------------------ main thread

  predicate MainEnabled(c: Control) {
    match c.pc
    case Finished => false
    case ReadingStderr(_) => c.child.Dead()
    case InteractiveWait => c.child.Dead()
    case QuitWaiting => c.child.Dead()
    case _ => true
  }

  /** Kill if needed, then wait: `child_cleanup`. */
  function Cleanup(env: Env, child: Child): Child {
    if env.reaps && !child.Unspawned? then Reaped else child
  }

  function MainMove(env: Env, c: Control): Move
  {
    match c.pc
    case SettingUp =>
      Silently(match env.setupQemu
               case None => c.(pc := BootStarting)
               case Some(e) => c.(pc := NotSetUp(e), handles := c.handles - {InQemu}))
    case NotSetUp(e) => Saying(BootEnd(Err(e)), c.(pc := DroppingUpdates))
    case BootStarting => Saying(BootStart, c.(pc := Spawning))
    case Spawning =>
      Silently(match env.spawn
               case Some(e) => c.(pc := NotBooted(e))
               case None =>
                 if env.interactive then c.(pc := WaitingForQemu, child := Running)
                 else c.(pc := WaitingForQemu, child := Running, boot := Reading(env.bootLog),
                         handles := c.handles + {InBootReader}))
    case WaitingForQemu =>
      Silently(c.(pc := match env.waitForQemu case None => ConnectingQmp case Some(e) => BootCleanup(e)))
    case ConnectingQmp =>
      Silently(c.(pc := match env.connectQmp case None => CloningQmp case Some(e) => ReadingStderr(e)))
    case CloningQmp =>
      Silently(c.(pc := match env.cloneQmp case None => Handshaking case Some(e) => BootCleanup(e)))
    case Handshaking =>
      Silently(c.(pc := match env.handshake case None => ConnectingQga case Some(e) => ReadingStderr(e)))
    case ReadingStderr(e) => Silently(c.(pc := BootCleanup(e)))
    case ConnectingQga =>
      Silently(c.(pc := match env.connectQga case None => Booted case Some(e) => BootCleanup(e)))
    case Booted => Saying(BootEnd(Ok(())), c.(pc := SetupStarting))
    case BootCleanup(e) => Silently(c.(pc := NotBooted(e), child := Cleanup(env, c.child)))
    case NotBooted(e) => Saying(BootEnd(Err(e)), c.(pc := DroppingQemu))
    case SetupStarting => Saying(SetupStart, c.(pc := Mounting(env.setupLines)))
    case Mounting(lines) =>
      if lines != [] then Saying(Setup(lines[0]), c.(pc := Mounting(lines[1..])))
      else (match env.setupError
            case Some(e) => Saying(SetupEnd(Err(e)), c.(pc := FinalCleanup))
            case None => Saying(SetupEnd(Ok(())), c.(
              pc := if env.interactive then InteractiveWait else CommandStarting)))
    case InteractiveWait => Silently(c.(pc := FinalCleanup, child := Reaped))
    case CommandStarting => Saying(CommandStart, c.(pc := Launching))
    case Launching =>
      Silently(match env.launch
               case Some(e) => c.(pc := CommandDone(Err(e)))
               case None => c.(pc := Polling, command := Reading(env.commandLog),
                               handles := c.handles + {InCommandReader}))
    case Polling =>
      Silently(c.(pc := match env.command
                        case Failed => CommandDone(Err(env.commandError))
                        case Exited(report, code) => Reporting(report, code)))
    case Reporting(lines, code) =>
      if lines != [] then Saying(Command(lines[0]), c.(pc := Reporting(lines[1..], code)))
      else Silently(c.(pc := CommandDone(Ok(code))))
    case CommandDone(r) => Saying(CommandEnd(r), c.(pc := Syncing))
    case Syncing => Silently(c.(pc := Quitting))
    case Quitting => Silently(c.(pc := if env.quits then QuitWaiting else FinalCleanup))
    case QuitWaiting => Silently(c.(pc := FinalCleanup, child := Cleanup(env, c.child)))
    case FinalCleanup => Silently(c.(pc := DroppingQemu, child := Cleanup(env, c.child)))
    case DroppingQemu => Silently(c.(pc := DroppingUpdates, handles := c.handles - {InQemu}))
    case DroppingUpdates => Silently(c.(pc := Finished, handles := c.handles - {RunOne}))
    case Finished => Silently(c)
  }

  // --------------------------------------------------------- reader threads

  /** A read returns once there is a whole line, or the stream has ended because
      QEMU is gone. */
  predicate ReaderEnabled(r: Reader, child: Child) {
    r.Reading? && (NEWLINE in r.rest || child.Dead())
  }

  /** What a reader sends for the next chunk of its stream. */
  function ReadMessage(rest: seq<Unit>, trim: Trim): Option<Output>
    requires rest != []
  {
    match ReadLine(rest)
    case None => None
    case Some(line) => Some(if trim.PopLast? then Boot(trim.Apply(line)) else Command(trim.Apply(line)))
  }

  /** One turn of a reader's loop: send the line read (if it was one), or leave
      the loop at the end of the stream, dropping the sender. */
  function BootMove(c: Control): Move
    requires c.boot.Reading?
  {
    var rest := c.boot.rest;
    if rest == [] then Silently(c.(boot := Closed, handles := c.handles - {InBootReader}))
    else Move(ReadMessage(rest, PopLast), c.(boot := Reading(rest[|Chunk(rest)|..])))
  }

  function CommandMove(c: Control): Move
    requires c.command.Reading?
  {
    var rest := c.command.rest;
    if rest == [] then Silently(c.(command := Closed, handles := c.handles - {InCommandReader}))
    else Move(ReadMessage(rest, TrimNewline), c.(command := Reading(rest[|Chunk(rest)|..])))
  }

  // -------------------------------------------------------------- UI thread

  /** `recv` yields the oldest message, or fails once nothing is queued and every
      sender is gone. */
  predicate UiEnabled(s: State) {
    !s.channel.hungUp && (s.channel.queue != [] || s.at.handles == {})
  }

  function Receive(ch: Channel): Channel {
    if ch.queue != [] then ch.(received := ch.received + [ch.queue[0]], queue := ch.queue[1..])
    else ch.(hungUp := true)
  }

  // -------------------------------------------------------------- schedules

  /** Who moves next. `QemuExits` is QEMU exiting on its own. */
  datatype Action = MainMoves | BootMoves | CommandMoves | UiMoves | QemuExits

  predicate Enabled(s: State, a: Action) {
    match a
    case MainMoves => MainEnabled(s.at)
    case BootMoves => ReaderEnabled(s.at.boot, s.at.child)
    case CommandMoves => ReaderEnabled(s.at.command, s.at.child)
    case UiMoves => UiEnabled(s)
    case QemuExits => s.at.child.Running?
  }

  function Perform(s: State, t: Thread, m: Move): State {
    State(m.to, Post(s.channel, t, m.msg))
  }

  function Next(env: Env, s: State, a: Action): State
    requires Enabled(s, a)
  {
    match a
    case MainMoves => Perform(s, Main, MainMove(env, s.at))
    case BootMoves => Perform(s, BootThread, BootMove(s.at))
    case CommandMoves => Perform(s, CommandThread, CommandMove(s.at))
    case UiMoves => s.(channel := Receive(s.channel))
    case QemuExits => s.(at := s.at.(child := Ended))
  }

  /** A schedule is any interleaving in which each move is enabled when made. */
  predicate Allowed(env: Env, schedule: seq<Action>)
    decreases |schedule|, 0
  {
    schedule == [] ||
    var n := |schedule| - 1;
    Allowed(env, schedule[..n]) && Enabled(After(env, schedule[..n]), schedule[n])
  }

  function After(env: Env, schedule: seq<Action>): State
    requires Allowed(env, schedule)
    decreases |schedule|, 1
  {
    if schedule == [] then Init()
    else
      var n := |schedule| - 1;
      Next(env, After(env, schedule[..n]), schedule[n])
  }
}
