/** The receiver: `Stage` and `Ui`, drawing on a terminal by erasing and redrawing. */
module Ui {
  import opened Messages
  import opened Screen
  import opened Sharing
  import opened Text

  /** The terminal; `enabled` is `ui_enabled`, constant during a run. `console` is what
      a QEMU that shares the terminal writes before each of the coming operations. */
  class Term {
    const enabled: bool
    var rows: seq<Row>
    var console: seq<seq<Row>>
    ghost var base: seq<Row>      // the rows there were before the target
    ghost var own: seq<Row>       // the rows there would be without QEMU's
    ghost var foreign: seq<Row>   // the rows QEMU has written

    ghost predicate Valid()
      reads this
    {
      Shares(enabled, base, own, foreign, rows)
    }

    /** Nothing foreign is written if nothing foreign was to come. */
    twostate predicate Kept()
      reads this
    {
      base == old(base) && (old(console) == [] ==> console == [] && foreign == old(foreign))
    }

    constructor (enabled: bool)
      ensures this.enabled == enabled && rows == [] && console == [] && Valid()
    {
      this.enabled := enabled;
      rows, console, base, own, foreign := [], [], [], [], [];
    }

    /** A target begins, with what its QEMU is going to write. */
    method Share(console: seq<seq<Row>>)
      modifies this
      ensures rows == old(rows) && this.console == console && Valid()
      ensures base == own == rows && foreign == []
    {
      this.console, base, own, foreign := console, rows, rows, [];
    }

    /** The other writer's turn. */
    method Interrupted()
      requires Valid()
      modifies this
      ensures Valid() && Kept() && own == old(own) && old(rows) <= rows
      ensures old(console) == [] ==> rows == old(rows)
    {
      if console != [] {
        ForeignWritten(enabled, base, own, foreign, rows, console[0]);
        foreign := foreign + console[0];
        rows := rows + console[0];
        console := console[1..];
      }
    }

    method WriteLine(row: Row)
      requires Valid()
      modifies this
      ensures Valid() && Kept() && own == old(own) + [row]
      ensures |rows| > |old(rows)| && old(rows) <= rows && rows[|rows| - 1] == row
      ensures old(console) == [] ==> rows == old(rows) + [row]
    {
      Interrupted();
      OwnWritten(enabled, base, own, foreign, rows, row);
      rows := rows + [row];
      own := own + [row];
    }

    /** Writes rows one by one. */
    method WriteLines(more: seq<Row>)
      requires Valid()
      modifies this
      ensures Valid() && Kept() && own == old(own) + more
      ensures old(rows) <= rows && Within(more, rows[|old(rows)|..])
      ensures old(console) == [] ==> rows == old(rows) + more
    {
      for i := 0 to |more|
        invariant Valid() && Kept() && own == old(own) + more[..i]
        invariant old(rows) <= rows && Within(more[..i], rows[|old(rows)|..])
        invariant old(console) == [] ==> rows == old(rows) + more[..i]
      {
        WriteNext(more[i], |old(rows)|, more[..i]);
        assert more[..i] + [more[i]] == more[..i + 1];
      }
      assert more[..|more|] == more;
    }

    /** Writes the row after those that stand, among others, below the first `start`. */
    method WriteNext(row: Row, ghost start: nat, ghost done: seq<Row>)
      requires Valid() && start <= |rows| && Within(done, rows[start..])
      modifies this
      ensures Valid() && Kept() && own == old(own) + [row]
      ensures old(rows) <= rows && Within(done + [row], rows[start..])
      ensures old(console) == [] ==> rows == old(rows) + [row]
    {
      WriteLine(row);
      WithinNext(done, old(rows)[start..], rows[start..], row);
    }

    method ClearLastLines(n: nat)
      requires Valid() && n <= |own| - |base|
      modifies this
      ensures Valid() && Kept() && own == Erase(enabled, old(own), n)
    {
      if enabled {
        Interrupted();
        OwnErased(base, own, foreign, rows, n);
        rows := if n <= |rows| then rows[..|rows| - n] else [];
        own := Erase(true, own, n);
      }
    }
  }

  lemma SplitNext(before: seq<Row>, after: seq<Row>, row: Row)
    requires before <= after && |after| > |before| && after[|after| - 1] == row
    ensures after == before + after[|before|..|after| - 1] + [row]
  {
  }

  lemma WithinNext(xs: seq<Row>, before: seq<Row>, after: seq<Row>, row: Row)
    requires Within(xs, before) && before <= after && |after| > |before| && after[|after| - 1] == row
    ensures Within(xs + [row], after)
  {
    var mid := after[|before|..|after| - 1];
    assert after == before + mid + [row] by { SplitNext(before, after, row); }
    WithinMore(xs, before, mid);
    WithinBoth(xs, before + mid, row);
  }

  function SizeOfWindow(enabled: bool, lines: seq<Row>): nat {
    var cap := if enabled then WINDOW_LENGTH else 1;
    if |lines| < cap then |lines| else cap
  }

  /** Erasing a window takes away exactly its rows, never one above it. */
  lemma WindowErased(enabled: bool, above: seq<Row>, lines: seq<Row>, n: nat)
    requires n == SizeOfWindow(enabled, lines)
    ensures Erase(enabled, above + Window(enabled, lines), n) ==
            above + if enabled then [] else lines
  {
    assert enabled ==> (above + Window(enabled, lines))[..|above|] == above;
  }

  /** The rows written after adding a line complete the new window. */
  lemma WindowRedrawn(enabled: bool, lines: seq<Row>, row: Row)
    ensures var more := lines + [row];
      Window(enabled, more) ==
      (if enabled then [] else lines) + LastWindow(more, SizeOfWindow(enabled, more))
  {
  }

  class Stage {
    const term: Term
    var lines: seq<Row>
    var expand: bool
    ghost const above: seq<Row>   // the own rows of the terminal up to and including the heading

    /** The own rows are what was above, and the window over this stage's lines. */
    ghost predicate Valid()
      reads this, term
    {
      term.Valid() && term.base <= above && term.own == above + Window(term.enabled, lines)
    }

    /** The section this stage draws, under the given heading. */
    ghost function Contents(heading: Row): Section
      reads this
    {
      Section(heading, lines, expand)
    }

    /** `Stage::new`: the previous stage is dropped before the heading is written. */
    constructor (term: Term, heading: Row, previous: Option<Stage>)
      requires term.Valid()
      requires previous.Some? ==> previous.value.term == term && previous.value.Valid()
      modifies term
      ensures Valid() && this.term == term && lines == [] && !expand && term.Kept()
      ensures previous.None? ==> above == old(term.own) + [heading]
      ensures previous.Some? ==> above == old(previous.value.Remains()) + [heading]
    {
      if previous.Some? {
        previous.value.Drop();
      }
      term.WriteLine(heading);
      this.term := term;
      lines := [];
      expand := false;
      above := term.own;
    }

    /** The own rows once the stage is dropped. */
    ghost function Remains(): seq<Row>
      reads this
    {
      above + Shown(term.enabled, expand, lines)
    }

    /** The number of rows to erase before redrawing; 1 stands for "just the new line". */
    function WindowSize(): nat
      reads this
    {
      SizeOfWindow(term.enabled, lines)
    }

    method PrintLine(line: string, look: Look)
      requires Valid()
      requires AtMostOneLine(line)
      modifies this, term
      ensures Valid() && term.Kept()
      ensures lines == old(lines) + [RowOf(term.enabled, line, look)]
      ensures expand == old(expand)
    {
      ghost var kept := if term.enabled then [] else lines;
      WindowErased(term.enabled, above, lines, WindowSize());
      term.ClearLastLines(WindowSize());
      assert term.own == above + kept;
      var row := RowOf(term.enabled, line, look);
      WindowRedrawn(term.enabled, lines, row);
      lines := lines + [row];
      var window := LastWindow(lines, WindowSize());
      assert Window(term.enabled, lines) == kept + window;
      term.WriteLines(window);
      Associates(above, kept, window);
    }

    method Expand(b: bool)
      modifies this`expand
      ensures expand == b
    {
      expand := b;
    }

    /** `Drop`: erase the window, then show every line if expanded. */
    method Drop()
      requires Valid()
      modifies term
      ensures term.Valid() && term.own == old(Remains()) && term.Kept()
      ensures term.enabled && expand ==> Within(lines, term.rows[|term.base|..])
      ensures term.enabled && expand && old(term.console) == [] ==> Contains(term.rows[|term.base|..], lines)
    {
      term.ClearLastLines(WindowSize());
      WindowErased(term.enabled, above, lines, WindowSize());
      if expand && term.enabled {
        ghost var before := term.rows;
        term.WriteLines(lines);
        LinesAtEnd(term.base, before, term.rows, lines);
      }
    }

    /** `error_out_stage`. */
    method ErrorOut(err: string)
      requires Valid()
      modifies this, term
      ensures Valid() && expand && term.Kept()
      ensures lines == old(lines) + RowsOf(term.enabled, Lines(err), Red)
    {
      forall l | l in Lines(err) ensures AtMostOneLine(l) {
        WithoutNewlineIsOneLine(l);
      }
      PrintAll(Lines(err));
      Expand(true);
    }

    method PrintAll(errLines: seq<string>)
      requires Valid() && forall l | l in errLines :: AtMostOneLine(l)
      modifies this, term
      ensures Valid() && expand == old(expand) && term.Kept()
      ensures lines == old(lines) + RowsOf(term.enabled, errLines, Red)
    {
      for i := 0 to |errLines|
        invariant Valid() && expand == old(expand) && term.Kept()
        invariant lines == old(lines) + RowsOf(term.enabled, errLines[..i], Red)
      {
        assert errLines[i] in errLines;
        PrintLine(errLines[i], Red);
        RowsOneMore(term.enabled, errLines, i);
      }
      assert errLines[..|errLines|] == errLines;
    }
  }

  lemma RowsOneMore(enabled: bool, lines: seq<string>, i: nat)
    requires i < |lines|
    ensures RowsOf(enabled, lines[..i + 1], Red) == RowsOf(enabled, lines[..i], Red) + [RowOf(enabled, lines[i], Red)]
  {
  }

  /** What a dropped stage leaves under its heading. */
  function Shown(enabled: bool, expand: bool, lines: seq<Row>): seq<Row> {
    if !enabled || expand then lines else []
  }

  /** `lines.windows(n).last().unwrap()`: panics unless 0 < n <= |lines|. */
  function LastWindow(lines: seq<Row>, n: nat): seq<Row>
    requires 0 < n <= |lines|
  {
    lines[|lines| - n..]
  }

  lemma LinesAtEnd(base: seq<Row>, before: seq<Row>, rows: seq<Row>, lines: seq<Row>)
    requires base <= before <= rows && Within(lines, rows[|before|..])
    ensures Within(lines, rows[|base|..])
    ensures rows == before + lines ==> Contains(rows[|base|..], lines)
  {
    WithinBelow(before[|base|..], lines, rows[|before|..]);
    assert rows[|base|..] == before[|base|..] + rows[|before|..];
    if rows == before + lines {
      assert rows[|base|..] == before[|base|..] + lines + [];
    }
  }

  /** The receiving end of the channel: what will be delivered before it hangs up, and
      whether QEMU is gone by then. */
  class Receiver {
    var pending: seq<Output>
    const gone: bool

    constructor (msgs: seq<Output>, gone: bool)
      ensures pending == msgs && this.gone == gone
    {
      pending := msgs;
      this.gone := gone;
    }

    /** None once every sender is gone and the queue is empty. */
    method Recv(term: Term) returns (m: Option<Output>)
      modifies this, term`console
      ensures old(pending) == [] ==> m.None? && pending == [] && (gone ==> term.console == [])
      ensures old(pending) != [] ==> m == Some(old(pending)[0]) && pending == old(pending)[1..]
      ensures term.Kept()
    {
      if pending == [] {
        m := None;
        if gone {
          term.console := [];
        }
      } else {
        m := Some(pending[0]);
        pending := pending[1..];
      }
    }
  }

  /** The stage object draws the running section of the page. */
  ghost predicate Draws(stage: Stage, mode: Mode, p: Page)
    reads stage, stage.term
  {
    && stage.Valid()
    && stage.term.enabled == mode.enabled
    && stage.Contents(p.current.heading) == p.current
    && stage.above == stage.term.base + LeftAll(mode.enabled, p.done) + [p.current.heading]
  }

  /** A `*Start` message: the running stage is dropped and a new one begins. */
  method Advance(stage: Stage, name: string, ghost mode: Mode, ghost p: Page)
    returns (next: Stage)
    requires Draws(stage, mode, p)
    modifies stage.term
    ensures next.term == stage.term && fresh(next) && stage.term.Kept()
    ensures Draws(next, mode, StartStage(p, name))
  {
    OwnRowsExtend(mode.enabled, stage.term.base, p.done, p.current);
    next := new Stage(stage.term, Heading(name, 2), Some(stage));
  }

  lemma OwnRowsExtend(enabled: bool, base: seq<Row>, done: seq<Section>, s: Section)
    ensures base + LeftAll(enabled, done) + [s.heading] + Shown(enabled, s.expand, s.lines)
         == base + LeftAll(enabled, done + [s])
  {
    LeftAllExtend(enabled, done, s);
    var left, heading, shown := LeftAll(enabled, done), [s.heading], Shown(enabled, s.expand, s.lines);
    assert Left(enabled, s) == heading + shown;
    assert base + left + heading + shown == base + (left + (heading + shown));
  }

  /** A `CommandEnd` message; returns the new verdict. */
  method CommandEnded(stage: Stage, r: Result<int>, mode: Mode, ghost p: Page)
    returns (rc: Option<i32>)
    requires Draws(stage, mode, p)
    modifies stage, stage.term
    ensures Draws(stage, mode, EndCommand(mode, p, r)) && stage.term.Kept()
    ensures rc == EndCommand(mode, p, r).rc
  {
    if mode.showCmd {
      stage.Expand(true);
    }
    match r {
      case Ok(retval) =>
        if retval != 0 {
          stage.ErrorOut("Command failed with exit code: " + SignedDecimal(retval) + mode.backtrace);
        }
        rc := Some(Wrap32(retval));
      case Err(e) =>
        stage.ErrorOut(e);
        rc := None;
    }
  }

  /** A `BootEnd` or `SetupEnd` message; returns the new verdict. */
  method StageEnded(stage: Stage, rc: Option<i32>, r: Result<()>, mode: Mode, ghost p: Page)
    returns (rc': Option<i32>)
    requires Draws(stage, mode, p) && rc == p.rc
    modifies stage, stage.term
    ensures stage.term.Kept()
    ensures var q := if r.Err? then Fail(mode.enabled, p, r.text) else p;
      Draws(stage, mode, q) && rc' == q.rc
  {
    rc' := rc;
    if r.Err? {
      stage.ErrorOut(r.text);
      rc' := None;
    }
  }

  /** The body of the receive loop. */
  method Handle(stage: Stage, stages: nat, rc: Option<i32>, m: Output, mode: Mode, ghost p: Page)
    returns (next: Stage, stages': nat, rc': Option<i32>)
    requires m.Printable()
    requires Draws(stage, mode, p) && stages == |p.done| && rc == p.rc
    modifies stage, stage.term
    ensures next.term == stage.term && (next == stage || fresh(next)) && stage.term.Kept()
    ensures var q := Update(mode, p, m);
      Draws(next, mode, q) && stages' == |q.done| && rc' == q.rc
  {
    next, stages', rc' := stage, stages, rc;
    match m {
      case BootStart =>
        next := Advance(stage, "Booting", mode, p);
        stages' := stages + 1;
      case SetupStart =>
        next := Advance(stage, "Setting up VM", mode, p);
        stages' := stages + 1;
      case CommandStart =>
        next := Advance(stage, "Running command", mode, p);
        stages' := stages + 1;
      case Boot(l) => stage.PrintLine(l, Dim);
      case Setup(l) => stage.PrintLine(l, Dim);
      case Command(l) => stage.PrintLine(l, Dim);
      case BootEnd(r) => rc' := StageEnded(stage, rc, r, mode, p);
      case SetupEnd(r) => rc' := StageEnded(stage, rc, r, mode, p);
      case CommandEnd(r) => rc' := CommandEnded(stage, r, mode, p);
    }
  }

  lemma LeftAllExtend(enabled: bool, done: seq<Section>, s: Section)
    ensures LeftAll(enabled, done + [s]) == LeftAll(enabled, done) + Left(enabled, s)
  {
    assert (done + [s])[..|done|] == done;
  }

  /** The end of `target_ui`: the last stage is dropped, then the verdict is shown. */
  method Finish(stage: Stage, stages: nat, rc: Option<i32>, showCmd: bool, ghost mode: Mode, ghost p: Page)
    requires mode.showCmd == showCmd
    requires Draws(stage, mode, p) && stages == |p.done| && rc == p.rc
    modifies stage.term
    ensures stage.term.Valid() && stage.term.Kept()
    ensures stage.term.own == FinalRows(mode, stage.term.base, p)
    ensures mode.enabled ==>
      LastStageLeft(mode, p, old(stage.term.console) == [], stage.term.rows[|stage.term.base|..])
  {
    OwnRowsLeft(mode.enabled, stage.term.base, p.done, p.current);
    stage.Drop();
    if rc.Some? && !showCmd {
      if rc.value == 0 {
        HeadingsStay(mode.enabled, p.done);
        WritePass(stage.term, stages);
      } else {
        WriteFailed(stage.term, p.current.lines);
      }
    }
  }

  /** What is left of the own rows by dropping the last stage. */
  lemma OwnRowsLeft(enabled: bool, base: seq<Row>, done: seq<Section>, s: Section)
    ensures base + LeftAll(enabled, done) + [s.heading] + Shown(enabled, s.expand, s.lines)
         == base + LeftAll(enabled, done) + Left(enabled, s)
  {
    assert Left(enabled, s) == [s.heading] + Shown(enabled, s.expand, s.lines);
    Associates(base + LeftAll(enabled, done), [s.heading], Shown(enabled, s.expand, s.lines));
  }

  method WritePass(term: Term, stages: nat)
    requires term.Valid() && stages <= |term.own| - |term.base|
    modifies term
    ensures term.Valid() && term.Kept() && term.own == Erase(term.enabled, old(term.own), stages) + [PASS]
  {
    term.ClearLastLines(stages);
    term.WriteLine(PASS);
  }

  method WriteFailed(term: Term, ghost lines: seq<Row>)
    requires term.Valid()
    modifies term
    ensures term.Valid() && term.Kept() && term.own == old(term.own) + [FAILED]
    ensures Within(lines, old(term.rows)[|term.base|..]) ==> Within(lines, term.rows[|term.base|..])
    ensures Contains(old(term.rows)[|term.base|..], lines) ==> Contains(term.rows[|term.base|..], lines)
  {
    term.WriteLine(FAILED);
    OneMoreRow(term.base, old(term.rows), term.rows, lines);
  }

  lemma OneMoreRow(base: seq<Row>, before: seq<Row>, rows: seq<Row>, lines: seq<Row>)
    requires base <= before <= rows
    ensures Within(lines, before[|base|..]) ==> Within(lines, rows[|base|..])
    ensures Contains(before[|base|..], lines) ==> Contains(rows[|base|..], lines)
  {
    var own, more := before[|base|..], rows[|before|..];
    assert rows[|base|..] == own + more;
    if Within(lines, own) { WithinMore(lines, own, more); }
    if Contains(own, lines) {
      ContainedBetween([], own, more, lines);
      assert [] + own + more == own + more;
    }
  }

  /** The messages still to be handled, the one just received included. */
  function Todo(msg: Option<Output>, pending: seq<Output>): seq<Output> {
    if msg.Some? then [msg.value] + pending else []
  }

  /** The state of the receive loop: the stage draws the page `p`, and the messages
      still to be handled lead from there to the page `final`. */
  ghost predicate Looping(stage: Stage, stages: nat, rc: Option<i32>, msg: Option<Output>, updates: Receiver,
                          mode: Mode, p: Page, final: Page)
    reads stage, stage.term, updates
  {
    && Draws(stage, mode, p) && stages == |p.done| && rc == p.rc
    && (forall m | m in Todo(msg, updates.pending) :: m.Printable())
    && UpdateAll(mode, p, Todo(msg, updates.pending)) == final
  }

  lemma NextToDo(mode: Mode, p: Page, m: Output, pending: seq<Output>)
    requires forall x | x in Todo(Some(m), pending) :: x.Printable()
    ensures m.Printable() && forall x | x in pending :: x.Printable()
    ensures UpdateAll(mode, p, Todo(Some(m), pending)) == UpdateAll(mode, Update(mode, p, m), pending)
  {
    var todo := Todo(Some(m), pending);
    assert todo[0] == m && todo[1..] == pending;
    assert m in todo && forall x | x in pending :: x in todo;
  }

  /** One turn of the loop: a message is handled and the next one received. */
  method Turn(stage: Stage, stages: nat, rc: Option<i32>, m: Output, updates: Receiver, mode: Mode,
              ghost p: Page, ghost final: Page)
    returns (next: Stage, stages': nat, rc': Option<i32>, msg': Option<Output>, ghost q: Page)
    requires Looping(stage, stages, rc, Some(m), updates, mode, p, final)
    modifies stage, stage.term, updates
    ensures next.term == stage.term && (next == stage || fresh(next)) && stage.term.Kept()
    ensures Looping(next, stages', rc', msg', updates, mode, q, final)
    ensures |Todo(msg', updates.pending)| == |old(updates.pending)|
    ensures msg'.None? && updates.gone ==> stage.term.console == []
  {
    NextToDo(mode, p, m, updates.pending);
    next, stages', rc' := Handle(stage, stages, rc, m, mode, p);
    q := Update(mode, p, m);
    ghost var pending := updates.pending;
    msg' := updates.Recv(stage.term);
    assert Todo(msg', updates.pending) == pending;
  }

  /** `target_ui` up to its loop. */
  method Begin(term: Term, updates: Receiver, target: string, mode: Mode, console: seq<seq<Row>>)
    returns (stage: Stage, msg: Option<Output>)
    requires mode.enabled == term.enabled && forall m | m in updates.pending :: m.Printable()
    modifies term, updates
    ensures stage.term == term && fresh(stage) && term.base == old(term.rows)
    ensures Looping(stage, 0, Some(0), msg, updates, mode, Blank(target),
                    UpdateAll(mode, Blank(target), old(updates.pending)))
    ensures console == [] ==> term.console == [] && term.foreign == []
    ensures msg.None? && updates.gone ==> term.console == []
  {
    term.Share(console);
    stage := new Stage(term, Heading(target, 1), None);
    msg := updates.Recv(term);
    assert Todo(msg, updates.pending) == old(updates.pending);
  }

  /** `Ui::target_ui` on a terminal that QEMU may share: the rows are those of the page,
      up to what QEMU writes, and the verdict is the page's. */
  method TargetUi(term: Term, updates: Receiver, target: string, showCmd: bool, backtrace: string,
                  console: seq<seq<Row>>)
    returns (rc: Option<i32>)
    requires forall m | m in updates.pending :: m.Printable()
    modifies term, updates
    ensures var mode := Mode(term.enabled, showCmd, backtrace);
      && rc == Verdict(mode, target, old(updates.pending))
      && Leaves(mode, old(term.rows), target, old(updates.pending), updates.gone, term.foreign, term.rows)
      && (console == [] ==>
            term.foreign == [] && term.rows == ScreenAfter(mode, old(term.rows), target, old(updates.pending)))
  {
    var mode := Mode(term.enabled, showCmd, backtrace);
    ghost var p, final := Blank(target), UpdateAll(mode, Blank(target), updates.pending);
    var stages := 0;
    rc := Some(0);
    var stage, msg := Begin(term, updates, target, mode, console);
    while msg.Some?
      invariant stage.term == term && fresh(stage)
      invariant Looping(stage, stages, rc, msg, updates, mode, p, final)
      invariant term.base == old(term.rows) && (console == [] ==> term.console == [] && term.foreign == [])
      invariant msg.None? && updates.gone ==> term.console == []
      decreases |Todo(msg, updates.pending)|
    {
      stage, stages, rc, msg, p := Turn(stage, stages, rc, msg.value, updates, mode, p, final);
    }
    Finish(stage, stages, rc, showCmd, mode, p);
  }

  /** No QEMU shares the terminal. */
  predicate Alone(runs: seq<TargetRun>) {
    forall run | run in runs :: run.console == []
  }

  /** The rows once the UI threads of the first `i` targets are done. */
  ghost predicate Below(mode: Mode, base: seq<Row>, runs: seq<TargetRun>, i: nat, rows: seq<Row>)
    requires i <= |runs|
  {
    base <= rows && (Alone(runs) ==> rows == ScreenAfterAll(mode, base, runs[..i]))
  }

  /** `Ui::run`: the verdict of a sole target, else the number of targets that failed. */
  method Run(term: Term, runs: seq<TargetRun>, showCmd: bool, backtrace: string) returns (rc: i32)
    requires |runs| < 0x8000_0000
    requires forall run, m | run in runs && m in run.received :: m.Printable()
    modifies term
    ensures var mode := Mode(term.enabled, showCmd, backtrace);
      && (|runs| == 1 ==>
            match Verdict(mode, runs[0].name, runs[0].received)
            case Some(code) => rc == code
            case None => rc == 69)
      && (|runs| != 1 ==>
            rc as int == |set i | 0 <= i < |runs| && Verdict(mode, runs[i].name, runs[i].received) != Some(0)|)
      && old(term.rows) <= term.rows
      && (Alone(runs) ==> term.rows == ScreenAfterAll(mode, old(term.rows), runs))
  {
    var mode := Mode(term.enabled, showCmd, backtrace);
    ghost var base := term.rows;
    var failed: i32 := 0;
    for i := 0 to |runs|
      invariant failed as int == |FailedTargets(mode, runs, i)| <= i
      invariant |runs| == 1 ==> i == 0
      invariant Below(mode, base, runs, i, term.rows)
    {
      assert runs[i] in runs;
      var target := RunTarget(term, runs, i, mode, base);
      if |runs| == 1 {
        assert runs[..1] == runs;
        return target;
      }
      CountOneMore(mode, runs, i);
      failed := failed + match target case 0 => 0 case _ => 1;
    }
    assert runs[..|runs|] == runs;
    assert FailedTargets(mode, runs, |runs|)
        == set i | 0 <= i < |runs| && Verdict(mode, runs[i].name, runs[i].received) != Some(0);
    return failed;
  }

  /** The UI thread of one target, and the exit code it stands for. */
  method RunTarget(term: Term, runs: seq<TargetRun>, i: nat, mode: Mode, ghost base: seq<Row>) returns (rc: i32)
    requires i < |runs| && mode.enabled == term.enabled && forall m | m in runs[i].received :: m.Printable()
    requires Below(mode, base, runs, i, term.rows)
    modifies term
    ensures rc == OrUnavailable(Verdict(mode, runs[i].name, runs[i].received))
    ensures Below(mode, base, runs, i + 1, term.rows)
  {
    var run := runs[i];
    assert run in runs;
    ScreenOneMore(mode, base, runs, i);
    var updates := new Receiver(run.received, run.gone);
    var verdict := TargetUi(term, updates, run.name, mode.showCmd, mode.backtrace, run.console);
    rc := OrUnavailable(verdict);
  }

  lemma ScreenOneMore(mode: Mode, base: seq<Row>, runs: seq<TargetRun>, i: nat)
    requires i < |runs|
    ensures ScreenAfterAll(mode, base, runs[..i + 1]) ==
            ScreenAfter(mode, ScreenAfterAll(mode, base, runs[..i]), runs[i].name, runs[i].received)
  {
    assert runs[..i + 1][..i] == runs[..i];
  }

  lemma CountOneMore(mode: Mode, runs: seq<TargetRun>, i: nat)
    requires i < |runs|
    ensures |FailedTargets(mode, runs, i + 1)| ==
            |FailedTargets(mode, runs, i)| + if Passed(mode, runs[i]) then 0 else 1
  {
    var before := FailedTargets(mode, runs, i);
    assert FailedTargets(mode, runs, i + 1) == if Passed(mode, runs[i]) then before else before + {i};
  }
}
