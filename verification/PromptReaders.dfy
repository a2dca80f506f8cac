/** The readers may be fast: every run of a command has a schedule on which at most one
    line of each reader comes after the end of the command. */
module PromptReaders {
  import opened Messages
  import opened Streams
  import opened Protocol
  import opened Invariants
  import opened Runs

  /** Until the command's end is said, the main thread of a run that exits never waits. */
  lemma MainBeforeCommandEnd(env: Env, c: Control)
    requires FateOf(env).Exits? && CommandTracked(env, c)
    requires !PastCommand(c.pc) && !c.pc.CommandDone?
    ensures MainEnabled(c) && !PastCommand(MainMove(env, c).to.pc)
  {
  }

  /** Lets the main thread run up to the end of the command. */
  lemma {:induction false} ReachCommandEnd(env: Env, schedule: seq<Action>) returns (longer: seq<Action>)
    requires Allowed(env, schedule) && FateOf(env).Exits? && !PastCommand(After(env, schedule).at.pc)
    ensures Allowed(env, longer) && After(env, longer).at.pc.CommandDone?
    decreases WorkLeft(env, After(env, schedule))
  {
    InvariantHolds(env, schedule);
    var s := After(env, schedule);
    if s.at.pc.CommandDone? {
      longer := schedule;
    } else {
      MainBeforeCommandEnd(env, s.at);
      WorkDrops(env, s, MainMoves);
      longer := ExtendSchedule(env, schedule, MainMoves);
      longer := ReachCommandEnd(env, longer);
    }
  }

  /** Lets the readers read all they can without the main thread moving. */
  lemma {:induction false} Drain(env: Env, schedule: seq<Action>) returns (longer: seq<Action>)
    requires Allowed(env, schedule)
    ensures Allowed(env, longer) && After(env, longer).at.pc == After(env, schedule).at.pc
    ensures var c := After(env, longer).at;
      !ReaderEnabled(c.boot, c.child) && !ReaderEnabled(c.command, c.child)
    decreases WorkLeft(env, After(env, schedule))
  {
    InvariantHolds(env, schedule);
    var s := After(env, schedule);
    if !ReaderEnabled(s.at.boot, s.at.child) && !ReaderEnabled(s.at.command, s.at.child) {
      longer := schedule;
    } else {
      var a := if ReaderEnabled(s.at.boot, s.at.child) then BootMoves else CommandMoves;
      WorkDrops(env, s, a);
      longer := ExtendSchedule(env, schedule, a);
      longer := Drain(env, longer);
    }
  }

  /** A reader that waits has at most an unfinished line left. */
  lemma OneLineLeft(r: Reader, child: Child, whole: seq<Unit>, trim: Trim)
    requires !ReaderEnabled(r, child) && !r.NotStarted?
    ensures |Play(Unread(r, whole, trim))| <= 1
  {
    if r.Reading? && r.rest != [] {
      var rest := r.rest;
      assert Chunk(rest) == rest;
      assert rest[|rest|..] == [];
      assert ReaderScript([], trim) == End;
      assert ReaderScript(rest, trim) == Prefix(ReadMessage(rest, trim), End);
    }
  }

  /** The end of the command, with the readers drained before it. */
  lemma EndPromptly(env: Env) returns (schedule: seq<Action>, end: Sent)
    requires FateOf(env).Exits?
    ensures Allowed(env, schedule)
    ensures var s := After(env, schedule);
      && s.channel.log != [] && s.channel.log[|s.channel.log| - 1] == end && !end.msg.IsLine()
      && Remaining(env, s.at.pc) == End
      && |Play(Unread(s.at.boot, env.bootLog, PopLast))| <= 1
      && |Play(Unread(s.at.command, env.commandLog, TrimNewline))| <= 1
  {
    var before := ReachCommandEnd(env, []);
    before := Drain(env, before);
    InvariantHolds(env, before);
    DrainedReaders(env, After(env, before).at);
    schedule := ExtendSchedule(env, before, MainMoves);
    end := SayEnd(env, After(env, before));
  }

  lemma DrainedReaders(env: Env, c: Control)
    requires FateOf(env).Exits? && ChildTracked(env, c) && CommandTracked(env, c) && c.pc.CommandDone?
    requires !ReaderEnabled(c.boot, c.child) && !ReaderEnabled(c.command, c.child)
    ensures |Play(Unread(c.boot, env.bootLog, PopLast))| <= 1
    ensures |Play(Unread(c.command, env.commandLog, TrimNewline))| <= 1
  {
    ReadersStarted(env, c);
    OneLineLeft(c.boot, c.child, env.bootLog, PopLast);
    OneLineLeft(c.command, c.child, env.commandLog, TrimNewline);
  }

  lemma SayEnd(env: Env, s: State) returns (end: Sent)
    requires s.at.pc.CommandDone?
    ensures var t := Next(env, s, MainMoves);
      && t.channel.log == s.channel.log + [end] && !end.msg.IsLine() && Remaining(env, t.at.pc) == End
      && t.at.boot == s.at.boot && t.at.command == s.at.command
  {
    end := Sent(Main, CommandEnd(s.at.pc.r));
  }

  lemma ReadersStarted(env: Env, c: Control)
    requires FateOf(env).Exits? && ChildTracked(env, c) && CommandTracked(env, c) && c.pc.CommandDone?
    ensures !c.boot.NotStarted? && !c.command.NotStarted?
  {
  }

  lemma {:induction false} LogBySenders(log: seq<Sent>)
    ensures |log| == |From(log, Main)| + |From(log, BootThread)| + |From(log, CommandThread)|
  {
    if log != [] { LogBySenders(log[..|log| - 1]); }
  }

  /** What is sent after some point is at most what was still unsent then. */
  lemma AtMostUnsent(now: seq<Sent>, rest: seq<Sent>, t: Thread, unsent: Script, later: Script, script: Script)
    requires OnCourse(now, t, unsent, script) && OnCourse(now + rest, t, later, script)
    ensures |From(rest, t)| <= |Play(unsent)|
  {
    FromConcat(now, rest, t);
    assert |From(now, t)| + |Play(unsent)| == |Play(script)|;
    assert |From(now + rest, t)| + |Play(later)| == |Play(script)|;
  }

  /** After the end of the command at most two messages follow. */
  lemma FewFollow(env: Env, s: State, later: State, rest: seq<Sent>)
    requires Invariant(env, s) && Invariant(env, later) && later.channel.log == s.channel.log + rest
    requires Remaining(env, s.at.pc) == End
    requires |Play(Unread(s.at.boot, env.bootLog, PopLast))| <= 1
    requires |Play(Unread(s.at.command, env.commandLog, TrimNewline))| <= 1
    ensures |rest| <= 2
  {
    AtMostUnsent(s.channel.log, rest, Main, End, Remaining(env, later.at.pc), MainScript(env));
    AtMostUnsent(s.channel.log, rest, BootThread, Unread(s.at.boot, env.bootLog, PopLast),
                 Unread(later.at.boot, env.bootLog, PopLast), ReaderScript(env.bootLog, PopLast));
    AtMostUnsent(s.channel.log, rest, CommandThread, Unread(s.at.command, env.commandLog, TrimNewline),
                 Unread(later.at.command, env.commandLog, TrimNewline), ReaderScript(env.commandLog, TrimNewline));
    LogBySenders(rest);
  }

  lemma {:induction false} TrailingAfter(a: seq<Output>, c: Output, b: seq<Output>)
    requires !c.IsLine()
    ensures TrailingLines(a + [c] + b) <= |b|
  {
    var all := a + [c] + b;
    if b == [] {
      assert all[|all| - 1] == c;
    } else {
      assert all[..|all| - 1] == a + [c] + b[..|b| - 1];
      TrailingAfter(a, c, b[..|b| - 1]);
    }
  }

  lemma {:induction false} TrailingInLog(log: seq<Sent>, rest: seq<Sent>)
    requires log != [] && !log[|log| - 1].msg.IsLine()
    ensures TrailingLines(AllSent(log + rest)) <= |rest|
  {
    var all, n := AllSent(log + rest), |log| - 1;
    assert all == all[..n] + [all[n]] + all[n + 1..];
    assert all[n] == log[n].msg;
    TrailingAfter(all[..n], all[n], all[n + 1..]);
  }

  lemma FewLateLines(env: Env) returns (schedule: seq<Action>)
    requires FateOf(env).Exits?
    ensures Allowed(env, schedule) && After(env, schedule).channel.hungUp
    ensures TrailingLines(After(env, schedule).channel.received) <= 2
  {
    var early, end := EndPromptly(env);
    schedule := CanComplete(env, early);
    var log, longer := After(env, early).channel.log, After(env, schedule).channel.log;
    var rest := longer[|log|..];
    assert longer == log + rest;
    InvariantHolds(env, early);
    InvariantHolds(env, schedule);
    FewFollow(env, After(env, early), After(env, schedule), rest);
    Conservation(env, schedule);
    TrailingInLog(log, rest);
  }
}
