/** The final screens of completed runs, spelled out. */
module ScreenTexts {
  import opened Messages
  import opened Text
  import opened Screen
  import opened Protocol
  import opened Runs
  import opened Verdicts
  import opened FinalScreens

  /** The headings of the stages that a run gets to. */
  function TitlesOf(target: string, f: Fate): seq<Row> {
    match f
    case BootFails(false, _) => [Raw("=> " + target)]
    case BootFails(true, _) => [Raw("=> " + target), Raw("===> Booting")]
    case SetupFails(_) => [Raw("=> " + target), Raw("===> Booting"), Raw("===> Setting up VM")]
    case Shell => [Raw("=> " + target), Raw("===> Booting"), Raw("===> Setting up VM")]
    case _ => [Raw("=> " + target), Raw("===> Booting"), Raw("===> Setting up VM"), Raw("===> Running command")]
  }

  /** The run's last stage stays expanded: there is an error, or the output was asked for. */
  predicate StaysExpanded(mode: Mode, f: Fate) {
    match f
    case Shell => false
    case Exits(code) => mode.showCmd || code != 0
    case _ => true
  }

  lemma StageTexts()
    ensures Heading("Booting", 2) == Raw("===> Booting")
    ensures Heading("Setting up VM", 2) == Raw("===> Setting up VM")
    ensures Heading("Running command", 2) == Raw("===> Running command")
  {
    HeadingTexts("Booting");
    HeadingTexts("Setting up VM");
    HeadingTexts("Running command");
    assert "===> " + "Booting" == "===> Booting";
    assert "===> " + "Setting up VM" == "===> Setting up VM";
    assert "===> " + "Running command" == "===> Running command";
  }

  lemma PageTitles(mode: Mode, target: string, f: Fate)
    ensures var p := PageOf(mode, target, f);
      && |TitlesOf(target, f)| == |p.done| + 1
      && (forall i | 0 <= i < |p.done| :: p.done[i].heading == TitlesOf(target, f)[i])
      && p.current.heading == TitlesOf(target, f)[|p.done|] && p.current.expand == StaysExpanded(mode, f)
      && p.rc == VerdictOf(f)
  {
    HeadingTexts(target);
    StageTexts();
  }

  /** What the UI has drawn, and not erased, when the last stage is dropped. */
  function Drawing(mode: Mode, p: Page): seq<Row> {
    LeftAll(mode.enabled, p.done) + Left(mode.enabled, p.current)
  }

  lemma DrawingIs(mode: Mode, target: string, f: Fate, p: Page)
    requires mode.enabled && Skeleton(p) == PageOf(mode, target, f)
    ensures Drawing(mode, p) == TitlesOf(target, f) + if StaysExpanded(mode, f) then p.current.lines else []
  {
    PageTitles(mode, target, f);
    SkeletonDone(p, PageOf(mode, target, f));
    PageIsPlain(p, mode, target, f);
    UnexpandedLeavesHeadings(p.done);
    var titles := TitlesOf(target, f);
    assert LeftAll(true, p.done) == titles[..|p.done|];
    assert titles == titles[..|p.done|] + [p.current.heading];
    Associates(titles[..|p.done|], [p.current.heading], if StaysExpanded(mode, f) then p.current.lines else []);
  }

  /** With the UI on, the rows that a completed run draws, on every schedule: the headings
      of its stages, the lines of the last one if that stays expanded, and the verdict;
      but for a pass, as many rows as there are stages are erased before that. */
  lemma FinalRowsAre(env: Env, schedule: seq<Action>, mode: Mode, target: string)
    requires Allowed(env, schedule) && After(env, schedule).channel.hungUp && mode.enabled
    ensures var f, r := FateOf(env), After(env, schedule).channel.received;
      var drawn := TitlesOf(target, f)
                   + if StaysExpanded(mode, f) then DrawnAll(mode, SinceStart(r)) else [];
      ScreenAfter(mode, [], target, r) ==
      if mode.showCmd || !(f.Shell? || f.Exits?) then drawn
      else if Passes(f) then drawn[..|drawn| - (if f.Shell? then 2 else 3)] + [Raw("PASS")]
      else drawn + [Raw("FAILED")]
  {
    var f, r := FateOf(env), After(env, schedule).channel.received;
    var p := UpdateAll(mode, Blank(target), r);
    FinalPage(env, schedule, mode, target);
    StageLines(mode, target, r);
    DrawingIs(mode, target, f, p);
    VerdictRow(mode, target, f, p);
  }

  lemma VerdictRow(mode: Mode, target: string, f: Fate, p: Page)
    requires mode.enabled && Skeleton(p) == PageOf(mode, target, f)
    ensures var drawn := Drawing(mode, p);
      && |drawn| >= |p.done|
      && |p.done| == |TitlesOf(target, f)| - 1
      && FinalRows(mode, [], p) ==
         if mode.showCmd || !(f.Shell? || f.Exits?) then drawn
         else if Passes(f) then drawn[..|drawn| - |p.done|] + [Raw("PASS")]
         else drawn + [Raw("FAILED")]
  {
    PageTitles(mode, target, f);
    SkeletonDone(p, PageOf(mode, target, f));
    PassesIff(f);
    HeadingsStay(true, p.done);
    assert [] + LeftAll(true, p.done) + Left(true, p.current) == Drawing(mode, p);
  }

  lemma {:induction false} DrawnIsStyled(mode: Mode, msgs: seq<Output>)
    requires mode.enabled
    ensures forall row | row in DrawnAll(mode, msgs) :: row.Styled?
  {
    if msgs != [] { DrawnIsStyled(mode, msgs[..|msgs| - 1]); }
  }

  lemma TitlesAreNoVerdict(target: string, f: Fate)
    ensures forall row | row in TitlesOf(target, f) :: row.Raw? && row.text != "PASS" && row.text != "FAILED"
  {
    forall row | row in TitlesOf(target, f) ensures row.Raw? && row.text[0] == '=' {
    }
    assert "PASS"[0] == 'P' && "FAILED"[0] == 'F';
  }

  /** With the UI on, the last row tells the verdict: PASS exactly for the interactive
      runs and the exit codes that are multiples of 2^32, FAILED exactly for the other
      exit codes; neither if the output was asked for or a call failed. */
  lemma LastRowIs(env: Env, schedule: seq<Action>, mode: Mode, target: string)
    requires Allowed(env, schedule) && After(env, schedule).channel.hungUp && mode.enabled
    ensures var f, rows := FateOf(env), ScreenAfter(mode, [], target, After(env, schedule).channel.received);
      && rows != []
      && (rows[|rows| - 1] == Raw("PASS") <==>
            !mode.showCmd && (f.Shell? || (f.Exits? && f.code % 0x1_0000_0000 == 0)))
      && (rows[|rows| - 1] == Raw("FAILED") <==>
            !mode.showCmd && f.Exits? && f.code % 0x1_0000_0000 != 0)
  {
    var f, r := FateOf(env), After(env, schedule).channel.received;
    FinalRowsAre(env, schedule, mode, target);
    LastDrawnIsNoVerdict(mode, target, f, SinceStart(r));
    assert "PASS" != "FAILED" by { assert "PASS"[0] != "FAILED"[0]; }
  }

  lemma LastDrawnIsNoVerdict(mode: Mode, target: string, f: Fate, msgs: seq<Output>)
    requires mode.enabled
    ensures var drawn := TitlesOf(target, f) + if StaysExpanded(mode, f) then DrawnAll(mode, msgs) else [];
      drawn[|drawn| - 1] != Raw("PASS") && drawn[|drawn| - 1] != Raw("FAILED")
  {
    DrawnIsStyled(mode, msgs);
    TitlesAreNoVerdict(target, f);
    var titles, lines := TitlesOf(target, f), if StaysExpanded(mode, f) then DrawnAll(mode, msgs) else [];
    var last := (titles + lines)[|titles + lines| - 1];
    assert last in titles || last in lines;
  }

  // ------------------------------------------------------------- without the UI

  /** The rows of one message when nothing is ever erased. */
  function PlainRows(mode: Mode): Output -> seq<Row> {
    (m: Output) =>
      if m.BootStart? then [Raw("===> Booting")]
      else if m.SetupStart? then [Raw("===> Setting up VM")]
      else if m.CommandStart? then [Raw("===> Running command")]
      else Drawn(mode, m)
  }

  lemma DrawingStep(mode: Mode, p: Page, m: Output)
    requires !mode.enabled
    ensures Drawing(mode, Update(mode, p, m)) == Drawing(mode, p) + PlainRows(mode)(m)
  {
    StageTexts();
    if m.BootStart? {
      DrawingStarts(mode, p, "Booting");
    } else if m.SetupStart? {
      DrawingStarts(mode, p, "Setting up VM");
    } else if m.CommandStart? {
      DrawingStarts(mode, p, "Running command");
    } else {
      UpdateDraws(mode, p, m);
      DrawingGrows(mode, p, Update(mode, p, m), Drawn(mode, m));
    }
  }

  lemma DrawingStarts(mode: Mode, p: Page, name: string)
    requires !mode.enabled
    ensures Drawing(mode, StartStage(p, name)) == Drawing(mode, p) + [Heading(name, 2)]
  {
    assert (p.done + [p.current])[..|p.done|] == p.done;
  }

  lemma DrawingGrows(mode: Mode, p: Page, q: Page, rows: seq<Row>)
    requires !mode.enabled && q.done == p.done && q.current.heading == p.current.heading
    requires q.current.lines == p.current.lines + rows
    ensures Drawing(mode, q) == Drawing(mode, p) + rows
  {
    assert Left(false, q.current) == Left(false, p.current) + rows;
    Associates(LeftAll(false, p.done), Left(false, p.current), rows);
  }

  lemma BlankDrawing(mode: Mode, target: string)
    requires !mode.enabled
    ensures Drawing(mode, Blank(target)) == [Raw("=> " + target)]
  {
    HeadingTexts(target);
  }

  lemma PageAfterOneMore(mode: Mode, target: string, front: seq<Output>, m: Output)
    requires !mode.enabled
    ensures Drawing(mode, UpdateAll(mode, Blank(target), front + [m]))
         == Drawing(mode, UpdateAll(mode, Blank(target), front)) + PlainRows(mode)(m)
  {
    UpdateAllConcat(mode, Blank(target), front, [m]);
    UpdateOne(mode, UpdateAll(mode, Blank(target), front), m);
    DrawingStep(mode, UpdateAll(mode, Blank(target), front), m);
  }

  lemma PlainOneMore(mode: Mode, front: seq<Output>, m: Output)
    ensures Collect(PlainRows(mode), front + [m]) == Collect(PlainRows(mode), front) + PlainRows(mode)(m)
  {
    assert (front + [m])[..|front|] == front;
  }

  /** Without the UI, everything is shown in the order received, for any messages. */
  lemma {:induction false} WithoutUi(mode: Mode, target: string, msgs: seq<Output>)
    requires !mode.enabled
    ensures Drawing(mode, UpdateAll(mode, Blank(target), msgs))
         == [Raw("=> " + target)] + Collect(PlainRows(mode), msgs)
  {
    if msgs == [] {
      BlankDrawing(mode, target);
    } else {
      var front, m := msgs[..|msgs| - 1], msgs[|msgs| - 1];
      assert msgs == front + [m];
      WithoutUi(mode, target, front);
      PageAfterOneMore(mode, target, front, m);
      PlainOneMore(mode, front, m);
      Associates([Raw("=> " + target)], Collect(PlainRows(mode), front), PlainRows(mode)(m));
    }
  }

  /** So the rows of a completed run are its headings and lines in order, and the verdict. */
  lemma PlainScreenIs(env: Env, schedule: seq<Action>, mode: Mode, target: string)
    requires Allowed(env, schedule) && After(env, schedule).channel.hungUp && !mode.enabled
    ensures var f, r := FateOf(env), After(env, schedule).channel.received;
      ScreenAfter(mode, [], target, r) == [Raw("=> " + target)] + Collect(PlainRows(mode), r) +
      if mode.showCmd || !(f.Shell? || f.Exits?) then []
      else if f.Shell? || f.code % 0x1_0000_0000 == 0 then [Raw("PASS")]
      else [Raw("FAILED")]
  {
    var f, r := FateOf(env), After(env, schedule).channel.received;
    var p := UpdateAll(mode, Blank(target), r);
    WithoutUi(mode, target, r);
    FinalPage(env, schedule, mode, target);
    PlainVerdictRow(mode, target, f, p);
  }

  lemma PlainVerdictRow(mode: Mode, target: string, f: Fate, p: Page)
    requires !mode.enabled && Skeleton(p) == PageOf(mode, target, f)
    ensures FinalRows(mode, [], p) == Drawing(mode, p) +
      if mode.showCmd || !(f.Shell? || f.Exits?) then []
      else if f.Shell? || f.code % 0x1_0000_0000 == 0 then [Raw("PASS")]
      else [Raw("FAILED")]
  {
    PageTitles(mode, target, f);
    SkeletonDone(p, PageOf(mode, target, f));
    PassesIff(f);
    assert [] + LeftAll(false, p.done) + Left(false, p.current) == Drawing(mode, p);
  }

  /** The rows of a failing exit code, spelled out. */
  lemma ExitTextIs(mode: Mode, code: int)
    ensures ExitText(mode, code) == "Command failed with exit code: " + SignedDecimal(code) + mode.backtrace
    ensures code >= 0 ==> Value(SignedDecimal(code)) == code
    ensures code < 0 ==> SignedDecimal(code)[0] == '-' && Value(SignedDecimal(code)[1..]) == -code
  {
    SignedDecimalIs(code);
  }
}
