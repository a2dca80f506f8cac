/** What the terminal of one target must show and which verdict it must return,
    as a plain fold over the received messages: no erasing, no redrawing. */
module Screen {
  import opened Messages
  import opened Text

  newtype i32 = x: int | -0x8000_0000 <= x < 0x8000_0000

  const WINDOW_LENGTH: nat := 10
  const EX_UNAVAILABLE: i32 := 69

  datatype Look = Dim | Red

  /** One row of the terminal. `Styled` is the row that stripping, clipping and
      styling a trimmed line yields; those are library calls. */
  datatype Row = Raw(text: string) | Styled(text: string, look: Look)

  /** The settings of a run; `backtrace` is what `{:?}` appends to an error made
      by `anyhow!` (empty unless backtraces are switched on). */
  datatype Mode = Mode(enabled: bool, showCmd: bool, backtrace: string)

  /** `retval as i32`: the low 32 bits as a two's complement number. */
  function Wrap32(n: int): i32 {
    ((n + 0x8000_0000) % 0x1_0000_0000 - 0x8000_0000) as i32
  }

  predicate FitsI32(n: int) {
    -0x8000_0000 <= n < 0x8000_0000
  }

  /** The cast keeps the exit code exactly when it is in range, and turns a
      failing code into success exactly for the nonzero multiples of 2^32. */
  lemma Wrap32Faithful(n: int)
    ensures Wrap32(n) as int == n <==> FitsI32(n)
    ensures Wrap32(n) == 0 <==> n % 0x1_0000_0000 == 0
    ensures (Wrap32(n) as int - n) % 0x1_0000_0000 == 0
  {
    var q, r := n / 0x1_0000_0000, n % 0x1_0000_0000;
    assert n == q * 0x1_0000_0000 + r;
    if r < 0x8000_0000 {
      assert (n + 0x8000_0000) / 0x1_0000_0000 == q;
    } else {
      assert (n + 0x8000_0000) / 0x1_0000_0000 == q + 1;
    }
  }

  /** `heading`: depth 1 for the target, depth 2 for its stages. */
  function Heading(name: string, depth: nat): Row
    requires depth >= 1
  {
    Raw("=" + seq((depth - 1) * 2, _ => '=') + "> " + name)
  }

  lemma HeadingTexts(name: string)
    ensures Heading(name, 1) == Raw("=> " + name) && Heading(name, 2) == Raw("===> " + name)
  {
    assert "=" + seq(0, _ => '=') + "> " == "=> ";
    assert "=" + seq(2, _ => '=') + "> " == "===> ";
  }

  const PASS := Raw("PASS")
  const FAILED := Raw("FAILED")

  // ------------------------------------------------------------ stage sections

  /** A stage heading with every line printed under it. */
  datatype Section = Section(heading: Row, lines: seq<Row>, expand: bool)

  function RowOf(enabled: bool, line: string, look: Look): Row {
    if enabled then Styled(TrimEnd(line), look) else Raw(TrimEnd(line))
  }

  function RowsOf(enabled: bool, lines: seq<string>, look: Look): (rows: seq<Row>)
    ensures |rows| == |lines|
    ensures forall i | 0 <= i < |rows| :: rows[i] == RowOf(enabled, lines[i], look)
  {
    seq(|lines|, i requires 0 <= i < |lines| => RowOf(enabled, lines[i], look))
  }

  /** The window over a running stage: all lines without the UI, else the last ten. */
  function Window(enabled: bool, lines: seq<Row>): seq<Row> {
    if enabled && |lines| > WINDOW_LENGTH then lines[|lines| - WINDOW_LENGTH..] else lines
  }

  /** A row holds the text of its line without the whitespace at its end, styled as told
      if the UI is on. */
  lemma RowHoldsLine(enabled: bool, line: string, look: Look)
    ensures var row := RowOf(enabled, line, look);
      && row.text <= line && (forall i | |row.text| <= i < |line| :: IsWhitespace(line[i]))
      && (row.text == "" || !IsWhitespace(row.text[|row.text| - 1]))
      && row == if enabled then Styled(row.text, look) else Raw(row.text)
  {
    TrimEndIs(line);
  }

  /** The window is ten rows high, at most; without the UI it shows everything. */
  lemma WindowIs(enabled: bool, lines: seq<Row>)
    ensures !enabled || |lines| <= 10 ==> Window(enabled, lines) == lines
    ensures enabled && |lines| > 10 ==> Window(enabled, lines) == lines[|lines| - 10..]
  {
  }

  /** What a stage leaves behind when it is dropped. */
  function Left(enabled: bool, s: Section): seq<Row> {
    [s.heading] + if !enabled || s.expand then s.lines else []
  }

  function LeftAll(enabled: bool, sections: seq<Section>): seq<Row> {
    if sections == [] then []
    else LeftAll(enabled, sections[..|sections| - 1]) + Left(enabled, sections[|sections| - 1])
  }

  /** `clear_last_lines`: erases the last `n` rows, if the UI is enabled. */
  function Erase(enabled: bool, rows: seq<Row>, n: nat): seq<Row> {
    if !enabled then rows
    else if n <= |rows| then rows[..|rows| - n]
    else []
  }

  // ------------------------------------------------------------------- the page

  /** The state of a target's display: finished stages, running stage, verdict. */
  datatype Page = Page(done: seq<Section>, current: Section, rc: Option<i32>)

  function Blank(target: string): Page {
    Page([], Section(Heading(target, 1), [], false), Some(0))
  }

  function StartStage(p: Page, name: string): Page {
    Page(p.done + [p.current], Section(Heading(name, 2), [], false), p.rc)
  }

  function AddLine(enabled: bool, p: Page, line: string): Page {
    p.(current := p.current.(lines := p.current.lines + [RowOf(enabled, line, Dim)]))
  }

  /** `error_out_stage`: the error in red, and the stage stays expanded. */
  function ErrorOut(enabled: bool, s: Section, err: string): Section {
    s.(lines := s.lines + RowsOf(enabled, Lines(err), Red), expand := true)
  }

  function Fail(enabled: bool, p: Page, err: string): Page {
    p.(current := ErrorOut(enabled, p.current, err), rc := None)
  }

  function ExitText(mode: Mode, code: int): string {
    "Command failed with exit code: " + SignedDecimal(code) + mode.backtrace
  }

  function EndCommand(mode: Mode, p: Page, r: Result<int>): Page {
    var shown := if mode.showCmd then p.(current := p.current.(expand := true)) else p;
    match r
    case Err(e) => Fail(mode.enabled, shown, e)
    case Ok(code) =>
      var s := if code == 0 then shown.current
               else ErrorOut(mode.enabled, shown.current, ExitText(mode, code));
      shown.(current := s, rc := Some(Wrap32(code)))
  }

  function Update(mode: Mode, p: Page, m: Output): Page {
    match m
    case BootStart => StartStage(p, "Booting")
    case SetupStart => StartStage(p, "Setting up VM")
    case CommandStart => StartStage(p, "Running command")
    case Boot(l) => AddLine(mode.enabled, p, l)
    case Setup(l) => AddLine(mode.enabled, p, l)
    case Command(l) => AddLine(mode.enabled, p, l)
    case BootEnd(r) => if r.Err? then Fail(mode.enabled, p, r.text) else p
    case SetupEnd(r) => if r.Err? then Fail(mode.enabled, p, r.text) else p
    case CommandEnd(r) => EndCommand(mode, p, r)
  }

  function UpdateAll(mode: Mode, p: Page, msgs: seq<Output>): Page
    decreases msgs
  {
    if msgs == [] then p else UpdateAll(mode, Update(mode, p, msgs[0]), msgs[1..])
  }

  /** The rows once the channel has hung up. */
  function FinalRows(mode: Mode, base: seq<Row>, p: Page): seq<Row> {
    var body := base + LeftAll(mode.enabled, p.done) + Left(mode.enabled, p.current);
    if mode.showCmd || p.rc.None? then body
    else if p.rc.value == 0 then Erase(mode.enabled, body, |p.done|) + [PASS]
    else body + [FAILED]
  }

  /** The verdict on a message sequence. */
  function Verdict(mode: Mode, target: string, msgs: seq<Output>): Option<i32> {
    UpdateAll(mode, Blank(target), msgs).rc
  }

  function ScreenAfter(mode: Mode, base: seq<Row>, target: string, msgs: seq<Output>): seq<Row> {
    FinalRows(mode, base, UpdateAll(mode, Blank(target), msgs))
  }

  lemma {:induction false} UpdateAllConcat(mode: Mode, p: Page, a: seq<Output>, b: seq<Output>)
    ensures UpdateAll(mode, p, a + b) == UpdateAll(mode, UpdateAll(mode, p, a), b)
    decreases a
  {
    if a == [] {
      assert a + b == b;
    } else {
      var whole := a + b;
      assert whole[0] == a[0] && whole[1..] == a[1..] + b;
      UpdateAllConcat(mode, Update(mode, p, a[0]), a[1..], b);
    }
  }

  // ---------------------------------------- what lines can and cannot influence

  /** A page with every line forgotten. */
  function Skeleton(p: Page): Page {
    Page(Bare(p.done), p.current.(lines := []), p.rc)
  }

  function Bare(sections: seq<Section>): (r: seq<Section>)
    ensures |r| == |sections|
    ensures forall i | 0 <= i < |r| :: r[i] == sections[i].(lines := [])
  {
    seq(|sections|, i requires 0 <= i < |sections| => sections[i].(lines := []))
  }

  lemma SkeletonStep(mode: Mode, p: Page, q: Page, m: Output)
    requires Skeleton(p) == Skeleton(q)
    ensures m.IsLine() ==> Skeleton(Update(mode, p, m)) == Skeleton(p)
    ensures Skeleton(Update(mode, p, m)) == Skeleton(Update(mode, q, m))
  {
    var d, e := Bare(p.done), Bare(q.done);
    assert d == e && |p.done| == |q.done|;
    assert Bare(p.done + [p.current]) == d + [p.current.(lines := [])];
    assert Bare(q.done + [q.current]) == e + [q.current.(lines := [])];
  }

  /** Headings, expansion and verdict depend on the control messages alone:
      whatever lines arrive, and wherever they arrive, they change none of them. */
  lemma {:induction false} OnlyControlsMatter(mode: Mode, p: Page, q: Page, msgs: seq<Output>)
    requires Skeleton(p) == Skeleton(q)
    ensures Skeleton(UpdateAll(mode, p, msgs)) == Skeleton(UpdateAll(mode, q, Controls(msgs)))
    decreases msgs
  {
    if msgs != [] {
      SkeletonStep(mode, p, q, msgs[0]);
      var p' := Update(mode, p, msgs[0]);
      if msgs[0].IsLine() {
        OnlyControlsMatter(mode, p', q, msgs[1..]);
        assert Controls(msgs) == Controls(msgs[1..]);
      } else {
        OnlyControlsMatter(mode, p', Update(mode, q, msgs[0]), msgs[1..]);
        assert Controls(msgs) == [msgs[0]] + Controls(msgs[1..]);
      }
    }
  }

  /** Unexpanded stages leave only their headings on an enabled terminal. */
  lemma {:induction false} UnexpandedLeavesHeadings(sections: seq<Section>)
    requires forall s | s in sections :: !s.expand
    ensures LeftAll(true, sections) == seq(|sections|, i requires 0 <= i < |sections| => sections[i].heading)
  {
    if sections != [] {
      var n := |sections| - 1;
      assert sections[n] in sections;
      UnexpandedLeavesHeadings(sections[..n]);
      assert sections == sections[..n] + [sections[n]];
    }
  }

  lemma {:induction false} HeadingsStay(enabled: bool, sections: seq<Section>)
    ensures |LeftAll(enabled, sections)| >= |sections|
  {
    if sections != [] { HeadingsStay(enabled, sections[..|sections| - 1]); }
  }

  /** Whatever is received, the rows above a target's own stay as they are: there are
      always as many headings to erase as `stages` counts. */
  lemma BaseIsKept(mode: Mode, base: seq<Row>, p: Page)
    ensures FinalRows(mode, base, p) == base + FinalRows(mode, [], p)
  {
    HeadingsStay(mode.enabled, p.done);
    var body := LeftAll(mode.enabled, p.done) + Left(mode.enabled, p.current);
    assert base + LeftAll(mode.enabled, p.done) + Left(mode.enabled, p.current) == base + body;
    assert [] + LeftAll(mode.enabled, p.done) + Left(mode.enabled, p.current) == body;
    if mode.enabled {
      assert (base + body)[..|base + body| - |p.done|] == base + body[..|body| - |p.done|];
    }
  }

  // ------------------------------------------------------- the rows of a stage

  predicate StartsStage(m: Output) {
    m.BootStart? || m.SetupStart? || m.CommandStart?
  }

  /** The error that a message reports, if any. */
  function ErrorIn(mode: Mode, m: Output): Option<string> {
    match m
    case BootEnd(Err(e)) => Some(e)
    case SetupEnd(Err(e)) => Some(e)
    case CommandEnd(Err(e)) => Some(e)
    case CommandEnd(Ok(code)) => if code == 0 then None else Some(ExitText(mode, code))
    case _ => None
  }

  /** The rows of an error. */
  function ErrorRows(mode: Mode, err: string): seq<Row> {
    RowsOf(mode.enabled, Lines(err), Red)
  }

  /** The rows that one message adds to the running stage. */
  function Drawn(mode: Mode, m: Output): seq<Row> {
    if m.IsLine() then [RowOf(mode.enabled, m.line, Dim)]
    else match ErrorIn(mode, m)
      case None => []
      case Some(e) => ErrorRows(mode, e)
  }

  function DrawnBy(mode: Mode): Output -> seq<Row> {
    (m: Output) => Drawn(mode, m)
  }

  function DrawnAll(mode: Mode, msgs: seq<Output>): seq<Row> {
    Collect(DrawnBy(mode), msgs)
  }

  lemma UpdateDraws(mode: Mode, p: Page, m: Output)
    requires !StartsStage(m)
    ensures var q := Update(mode, p, m);
      && q.done == p.done && q.current.heading == p.current.heading
      && q.current.lines == p.current.lines + Drawn(mode, m)
  {
    assert p.current.lines + [] == p.current.lines;
  }

  lemma UpdateOne(mode: Mode, p: Page, m: Output)
    ensures UpdateAll(mode, p, [m]) == Update(mode, p, m)
  {
    assert UpdateAll(mode, p, [m]) == UpdateAll(mode, Update(mode, p, m), [m][1..]);
  }

  /** Lines of the running stage are only ever added. */
  predicate Grows(p: Page, q: Page) {
    p.done == q.done && p.current.heading == q.current.heading && p.current.lines <= q.current.lines
  }

  lemma {:induction false} LinesOnlyGrow(mode: Mode, p: Page, msgs: seq<Output>)
    requires forall m | m in msgs :: m.IsLine()
    ensures Grows(p, UpdateAll(mode, p, msgs))
    ensures UpdateAll(mode, p, msgs).rc == p.rc
    ensures UpdateAll(mode, p, msgs).current.expand == p.current.expand
    decreases msgs
  {
    if msgs != [] {
      assert msgs[0] in msgs;
      LinesOnlyGrow(mode, Update(mode, p, msgs[0]), msgs[1..]);
    }
  }

  // --------------------------------------------------------- a list of targets

  /** A target's name, everything its UI thread received, what its QEMU writes to the
      terminal before each of the UI's operations, and whether it is gone at hang-up. */
  datatype TargetRun = TargetRun(name: string, received: seq<Output>, console: seq<seq<Row>>, gone: bool)

  predicate Passed(mode: Mode, run: TargetRun) {
    Verdict(mode, run.name, run.received) == Some(0)
  }

  /** The targets among the first `n` that did not pass. */
  ghost function FailedTargets(mode: Mode, runs: seq<TargetRun>, n: nat): set<int>
    requires n <= |runs|
  {
    set i | 0 <= i < n && !Passed(mode, runs[i])
  }

  function OrUnavailable(rc: Option<i32>): i32 {
    match rc
    case Some(code) => code
    case None => EX_UNAVAILABLE
  }

  /** The screens of the targets, one below the other. */
  function ScreenAfterAll(mode: Mode, base: seq<Row>, runs: seq<TargetRun>): seq<Row> {
    if runs == [] then base
    else
      var n := |runs| - 1;
      ScreenAfter(mode, ScreenAfterAll(mode, base, runs[..n]), runs[n].name, runs[n].received)
  }
}
