/** The final screens of completed runs: what passing leaves, when an error is shown, and
    when the command's output is. */
module FinalScreens {
  import opened Messages
  import opened Text
  import opened Screen
  import opened Sharing
  import opened GuestExec
  import opened Protocol
  import opened Runs
  import opened Verdicts
  import opened Variants
  import opened PromptReaders

  // ------------------------------------------------------------- the last stage

  /** The error a run reports, if it does. */
  function ErrorOf(mode: Mode, f: Fate): Option<string> {
    ErrorIn(mode, LastWord(f))
  }

  /** The messages since the last one that starts a stage. */
  function SinceStart(msgs: seq<Output>): seq<Output> {
    if msgs == [] || StartsStage(msgs[|msgs| - 1]) then []
    else SinceStart(msgs[..|msgs| - 1]) + [msgs[|msgs| - 1]]
  }

  /** The running stage holds the rows of those messages. */
  lemma {:induction false} StageLines(mode: Mode, target: string, msgs: seq<Output>)
    ensures UpdateAll(mode, Blank(target), msgs).current.lines == DrawnAll(mode, SinceStart(msgs))
  {
    if msgs != [] {
      var n := |msgs| - 1;
      assert msgs == msgs[..n] + [msgs[n]];
      StageLines(mode, target, msgs[..n]);
      var p := UpdateAll(mode, Blank(target), msgs[..n]);
      UpdateAllConcat(mode, Blank(target), msgs[..n], [msgs[n]]);
      UpdateOne(mode, p, msgs[n]);
      if !StartsStage(msgs[n]) {
        UpdateDraws(mode, p, msgs[n]);
        assert SinceStart(msgs)[..|SinceStart(msgs)| - 1] == SinceStart(msgs[..n]);
      }
    }
  }

  lemma {:induction false} SinceStartConcat(a: seq<Output>, b: seq<Output>)
    requires forall m | m in b :: !StartsStage(m)
    ensures SinceStart(a + b) == SinceStart(a) + b
  {
    if b == [] {
      assert a + b == a;
    } else {
      var n := |b| - 1;
      assert (a + b)[..|a| + n] == a + b[..n] && (a + b)[|a| + n] == b[n];
      SinceStartConcat(a, b[..n]);
    }
  }

  lemma {:induction false} SinceStartMembers(msgs: seq<Output>)
    ensures forall m | m in SinceStart(msgs) :: m in msgs
  {
    if msgs != [] { SinceStartMembers(msgs[..|msgs| - 1]); }
  }

  /** The last word of a run, what came before it, and the late lines. */
  lemma AtLastWord(f: Fate, r: seq<Output>) returns (before: seq<Output>, late: seq<Output>)
    requires Controls(r) == ControlsOf(f)
    ensures r == before + ([LastWord(f)] + late) && Controls(before) + [LastWord(f)] == ControlsOf(f)
    ensures |late| == TrailingLines(r) && forall m | m in late :: m.IsLine()
  {
    var c;
    before, c, late := LastControl(r);
    LastIsLastWord(f, Controls(before), c);
    Associates(before, [c], late);
  }

  lemma LastIsLastWord(f: Fate, front: seq<Output>, c: Output)
    requires front + [c] == ControlsOf(f)
    ensures c == LastWord(f)
  {
    assert (front + [c])[|front|] == ControlsOf(f)[|ControlsOf(f)| - 1];
  }

  lemma OnlyLastWordFails(mode: Mode, f: Fate, before: seq<Output>, m: Output)
    requires Controls(before) + [LastWord(f)] == ControlsOf(f) && m in before
    ensures ErrorIn(mode, m).None?
  {
    if !m.IsLine() {
      ControlsKeepMembers(before, m);
      NoErrorBefore(mode, f, Controls(before), m);
    }
  }

  lemma NoErrorBefore(mode: Mode, f: Fate, c: seq<Output>, m: Output)
    requires c + [LastWord(f)] == ControlsOf(f) && m in c
    ensures ErrorIn(mode, m).None?
  {
    assert c == ControlsOf(f)[..|ControlsOf(f)| - 1];
  }

  /** In every completed run the last stage holds the rows of lines, then those of the
      run's error, then those of the late lines. */
  lemma LastStageLines(env: Env, schedule: seq<Action>, mode: Mode, target: string)
    returns (early: seq<Output>, late: seq<Output>)
    requires Allowed(env, schedule) && After(env, schedule).channel.hungUp
    ensures var r := After(env, schedule).channel.received;
      && UpdateAll(mode, Blank(target), r).current.lines
         == DrawnAll(mode, early) + Drawn(mode, LastWord(FateOf(env))) + DrawnAll(mode, late)
      && |late| == TrailingLines(r)
    ensures forall m | m in early :: ErrorIn(mode, m).None?
    ensures forall m | m in late :: m.IsLine()
  {
    var r := After(env, schedule).channel.received;
    ControlLanguage(env, schedule);
    early, late := LastStageMessages(mode, FateOf(env), r);
    StageLines(mode, target, r);
    DrawnInThree(mode, early, LastWord(FateOf(env)), late);
  }

  lemma LastStageMessages(mode: Mode, f: Fate, r: seq<Output>) returns (early: seq<Output>, late: seq<Output>)
    requires Controls(r) == ControlsOf(f)
    ensures SinceStart(r) == early + ([LastWord(f)] + late) && |late| == TrailingLines(r)
    ensures forall m | m in early :: ErrorIn(mode, m).None?
    ensures forall m | m in late :: m.IsLine()
  {
    var before;
    before, late := AtLastWord(f, r);
    early := SinceStart(before);
    SinceStartMembers(before);
    forall m | m in early ensures ErrorIn(mode, m).None? {
      OnlyLastWordFails(mode, f, before, m);
    }
    EndStartsNothing(f, late);
    SinceStartConcat(before, [LastWord(f)] + late);
  }

  lemma EndStartsNothing(f: Fate, late: seq<Output>)
    requires forall m | m in late :: m.IsLine()
    ensures forall m | m in [LastWord(f)] + late :: !StartsStage(m)
  {
  }

  lemma DrawnInThree(mode: Mode, early: seq<Output>, m: Output, late: seq<Output>)
    ensures DrawnAll(mode, early + ([m] + late)) == DrawnAll(mode, early) + Drawn(mode, m) + DrawnAll(mode, late)
  {
    CollectConcat(DrawnBy(mode), early, [m] + late);
    CollectConcat(DrawnBy(mode), [m], late);
    CollectOne(DrawnBy(mode), m);
    Associates(DrawnAll(mode, early), Drawn(mode, m), DrawnAll(mode, late));
  }

  // ------------------------------------------------------------- errors on screen

  predicate IsRed(row: Row) {
    row.Styled? && row.look.Red?
  }

  predicate NoneRed(rows: seq<Row>) {
    forall row | row in rows :: !IsRed(row)
  }

  lemma {:induction false} LinesAreDim(mode: Mode, msgs: seq<Output>)
    requires forall m | m in msgs :: ErrorIn(mode, m).None?
    ensures NoneRed(DrawnAll(mode, msgs))
  {
    if msgs != [] {
      assert msgs[|msgs| - 1] in msgs;
      LinesAreDim(mode, msgs[..|msgs| - 1]);
    }
  }

  lemma {:induction false} OneRowPerLine(mode: Mode, msgs: seq<Output>)
    requires forall m | m in msgs :: m.IsLine()
    ensures |DrawnAll(mode, msgs)| == |msgs|
  {
    if msgs != [] {
      assert msgs[|msgs| - 1] in msgs;
      OneRowPerLine(mode, msgs[..|msgs| - 1]);
    }
  }

  /** Erasing `n` rows below an error and printing PASS keeps the whole error exactly if
      at least `n` rows follow it. */
  lemma ErasedOrKept(above: seq<Row>, err: seq<Row>, below: seq<Row>, n: nat)
    requires n <= |above + err + below| && err != []
    requires NoneRed(above) && NoneRed(below) && forall row | row in err :: IsRed(row)
    ensures var body := above + err + below;
      Contains(body[..|body| - n] + [PASS], err) <==> n <= |below|
  {
    var body := above + err + below;
    var cut := body[..|body| - n];
    if n <= |below| {
      assert cut + [PASS] == above + err + (below[..|below| - n] + [PASS]);
    }
    if a: seq<Row>, b: seq<Row> :| cut + [PASS] == a + err + b {
      RedBlockIsWhole(above, err, below, cut, a, b);
    }
  }

  lemma RedBlockIsWhole(above: seq<Row>, err: seq<Row>, below: seq<Row>, cut: seq<Row>, a: seq<Row>, b: seq<Row>)
    requires NoneRed(above) && NoneRed(below) && err != [] && forall row | row in err :: IsRed(row)
    requires cut <= above + err + below && cut + [PASS] == a + err + b
    ensures |cut| >= |above| + |err|
  {
    var body, rows := above + err + below, cut + [PASS];
    var first, last := |a|, |a| + |err| - 1;
    assert rows[first] == err[0] && rows[last] == err[|err| - 1];
    assert err[0] in err && err[|err| - 1] in err;
    assert IsRed(rows[first]) && IsRed(rows[last]);
    assert rows[|cut|] == PASS && last < |cut|;
    assert body[first] == rows[first] && body[last] == rows[last];
    assert forall i | 0 <= i < |above| :: body[i] == above[i] && above[i] in above;
    assert first >= |above|;
  }

  lemma LeftKeepsLines(mode: Mode, base: seq<Row>, p: Page, block: seq<Row>)
    requires Contains(p.current.lines, block) && (p.current.expand || !mode.enabled)
    requires mode.showCmd || p.rc != Some(0) || !mode.enabled
    ensures Contains(FinalRows(mode, base, p), block)
  {
    var above, lines := base + LeftAll(mode.enabled, p.done) + [p.current.heading], p.current.lines;
    var below := if mode.showCmd || p.rc.None? then [] else if p.rc.value == 0 then [PASS] else [FAILED];
    assert FinalRows(mode, base, p) == above + lines + below;
    ContainedBetween(above, lines, below, block);
  }

  lemma ErrorHasRows(mode: Mode, f: Fate)
    requires ErrorOf(mode, f).Some?
    ensures Drawn(mode, LastWord(f)) == ErrorRows(mode, ErrorOf(mode, f).value)
    ensures f.Exits? ==> ErrorRows(mode, ErrorOf(mode, f).value) != []
    ensures mode.enabled ==> forall row | row in ErrorRows(mode, ErrorOf(mode, f).value) :: IsRed(row)
  {
    if f.Exits? {
      assert |ExitText(mode, f.code)| > 0;
    }
  }

  /** In every completed run that fails, the last stage holds the whole error. */
  lemma ErrorInLastStage(env: Env, schedule: seq<Action>, mode: Mode, target: string)
    requires Allowed(env, schedule) && After(env, schedule).channel.hungUp
    requires ErrorOf(mode, FateOf(env)).Some?
    ensures Contains(UpdateAll(mode, Blank(target), After(env, schedule).channel.received).current.lines,
                     ErrorRows(mode, ErrorOf(mode, FateOf(env)).value))
  {
    var early, late := LastStageLines(env, schedule, mode, target);
    ErrorHasRows(mode, FateOf(env));
  }

  /** What keeps the final "erase the stages, print PASS" from erasing the last stage. */
  predicate NothingErased(mode: Mode, f: Fate) {
    !mode.enabled || mode.showCmd || VerdictOf(f) != Some(0)
  }

  lemma ErrorShown(env: Env, schedule: seq<Action>, mode: Mode, target: string)
    requires Allowed(env, schedule) && After(env, schedule).channel.hungUp
    requires ErrorOf(mode, FateOf(env)).Some? && NothingErased(mode, FateOf(env))
    ensures Contains(ScreenAfter(mode, [], target, After(env, schedule).channel.received),
                     ErrorRows(mode, ErrorOf(mode, FateOf(env)).value))
  {
    var p := UpdateAll(mode, Blank(target), After(env, schedule).channel.received);
    FinalPage(env, schedule, mode, target);
    ErrorInLastStage(env, schedule, mode, target);
    ExpandedOnError(mode, target, FateOf(env));
    assert p.current.expand && p.rc == VerdictOf(FateOf(env));
    LeftKeepsLines(mode, [], p, ErrorRows(mode, ErrorOf(mode, FateOf(env)).value));
  }

  lemma ExpandedOnError(mode: Mode, target: string, f: Fate)
    requires ErrorOf(mode, f).Some?
    ensures PageOf(mode, target, f).current.expand && PageOf(mode, target, f).rc == VerdictOf(f)
    ensures VerdictOf(f) == Some(0) ==> f.Exits? && |PageOf(mode, target, f).done| == 3
  {
  }

  /** The rows of a page that is expanded and gets PASS. */
  lemma ErasedBody(mode: Mode, p: Page)
    requires mode.enabled && !mode.showCmd && p.rc == Some(0) && p.current.expand
    requires p.current.heading.Raw? && forall s | s in p.done :: !s.expand && s.heading.Raw?
    ensures var headings := LeftAll(true, p.done) + [p.current.heading]; var body := headings + p.current.lines;
      && NoneRed(headings) && |headings| == |p.done| + 1
      && FinalRows(mode, [], p) == body[..|body| - |p.done|] + [PASS]
  {
    FinalBody([], p);
    UnexpandedLeavesHeadings(p.done);
    var headings := LeftAll(true, p.done) + [p.current.heading];
    assert [] + headings + p.current.lines == headings + p.current.lines;
  }

  lemma PageIsPlain(p: Page, mode: Mode, target: string, f: Fate)
    requires Skeleton(p) == PageOf(mode, target, f)
    ensures p.current.heading.Raw? && forall s | s in p.done :: !s.expand && s.heading.Raw?
  {
    SkeletonDone(p, PageOf(mode, target, f));
    forall s | s in p.done ensures !s.expand && s.heading.Raw? {
      var i :| 0 <= i < |p.done| && p.done[i] == s;
      assert !PageOf(mode, target, f).done[i].expand && PageOf(mode, target, f).done[i].heading.Raw?;
    }
  }

  /** A nonzero exit code that is reported as a pass: its error survives the final
      erasing exactly if at least three lines came late. */
  lemma ErasedErrorIff(env: Env, schedule: seq<Action>, mode: Mode, target: string)
    requires Allowed(env, schedule) && After(env, schedule).channel.hungUp
    requires ErrorOf(mode, FateOf(env)).Some? && !NothingErased(mode, FateOf(env))
    ensures var r := After(env, schedule).channel.received;
      Contains(ScreenAfter(mode, [], target, r), ErrorRows(mode, ErrorOf(mode, FateOf(env)).value))
      <==> TrailingLines(r) >= 3
  {
    FinalPage(env, schedule, mode, target);
    var early, late := LastStageLines(env, schedule, mode, target);
    var p := UpdateAll(mode, Blank(target), After(env, schedule).channel.received);
    ErasedOnPage(mode, target, FateOf(env), p, early, late);
  }

  lemma ErasedOnPage(mode: Mode, target: string, f: Fate, p: Page, early: seq<Output>, late: seq<Output>)
    requires ErrorOf(mode, f).Some? && !NothingErased(mode, f) && Skeleton(p) == PageOf(mode, target, f)
    requires p.current.lines == DrawnAll(mode, early) + Drawn(mode, LastWord(f)) + DrawnAll(mode, late)
    requires forall m | m in early :: ErrorIn(mode, m).None?
    requires forall m | m in late :: m.IsLine()
    ensures Contains(FinalRows(mode, [], p), ErrorRows(mode, ErrorOf(mode, f).value)) <==> |late| >= 3
  {
    ExpandedOnError(mode, target, f);
    SkeletonDone(p, PageOf(mode, target, f));
    PageIsPlain(p, mode, target, f);
    ErasedBody(mode, p);
    ErrorHasRows(mode, f);
    LinesAreDim(mode, early);
    LinesAreDim(mode, late);
    OneRowPerLine(mode, late);
    CutAtError(LeftAll(true, p.done) + [p.current.heading], DrawnAll(mode, early),
               ErrorRows(mode, ErrorOf(mode, f).value), DrawnAll(mode, late));
  }

  lemma NoneRedConcat(a: seq<Row>, b: seq<Row>)
    requires NoneRed(a) && NoneRed(b)
    ensures NoneRed(a + b)
  {
  }

  lemma CutAtError(headings: seq<Row>, early: seq<Row>, err: seq<Row>, late: seq<Row>)
    requires NoneRed(headings) && NoneRed(early) && NoneRed(late)
    requires |headings| == 4 && err != [] && forall row | row in err :: IsRed(row)
    ensures var body := headings + (early + err + late); Contains(body[..|body| - 3] + [PASS], err) <==> |late| >= 3
  {
    NoneRedConcat(headings, early);
    Associates(headings, early + err, late);
    Associates(headings, early, err);
    ErasedOrKept(headings + early, err, late, 3);
  }

  lemma ErrorShownIff(env: Env, schedule: seq<Action>, mode: Mode, target: string)
    requires Allowed(env, schedule) && After(env, schedule).channel.hungUp
    requires ErrorOf(mode, FateOf(env)).Some?
    ensures var r := After(env, schedule).channel.received;
      Contains(ScreenAfter(mode, [], target, r), ErrorRows(mode, ErrorOf(mode, FateOf(env)).value))
      <==> NothingErased(mode, FateOf(env)) || TrailingLines(r) >= 3
  {
    if NothingErased(mode, FateOf(env)) {
      ErrorShown(env, schedule, mode, target);
    } else {
      ErasedErrorIff(env, schedule, mode, target);
    }
  }

  /** A run's error is sure to be shown, whatever the schedule, exactly if the final
      erasing cannot come into play. */
  lemma ErrorSurelyShownIff(env: Env, mode: Mode, target: string)
    requires ErrorOf(mode, FateOf(env)).Some?
    ensures NothingErased(mode, FateOf(env)) <==>
      forall schedule: seq<Action> | Allowed(env, schedule) && After(env, schedule).channel.hungUp ::
        Contains(ScreenAfter(mode, [], target, After(env, schedule).channel.received),
                 ErrorRows(mode, ErrorOf(mode, FateOf(env)).value))
  {
    if NothingErased(mode, FateOf(env)) {
      forall schedule: seq<Action> | Allowed(env, schedule) && After(env, schedule).channel.hungUp
        ensures Contains(ScreenAfter(mode, [], target, After(env, schedule).channel.received),
                         ErrorRows(mode, ErrorOf(mode, FateOf(env)).value))
      {
        ErrorShown(env, schedule, mode, target);
      }
    } else {
      ExpandedOnError(mode, target, FateOf(env));
      var schedule := FewLateLines(env);
      ErasedErrorIff(env, schedule, mode, target);
    }
  }

  // ------------------------------------------------------- the terminal of a run

  /** An interactive QEMU writes to the terminal of the UI. */
  predicate SharesTerminal(env: Env) {
    env.interactive && env.setupQemu.None? && env.spawn.None?
  }

  /** `rows` are what a completed run leaves on the terminal, `foreign` of them written
      by QEMU, which is gone when the channel hangs up if killing and waiting succeed. */
  ghost predicate LeavesRows(env: Env, schedule: seq<Action>, mode: Mode, base: seq<Row>, target: string,
                             foreign: seq<Row>, rows: seq<Row>)
    requires Allowed(env, schedule) && After(env, schedule).channel.hungUp
  {
    && Leaves(mode, base, target, After(env, schedule).channel.received, env.reaps, foreign, rows)
    && (!SharesTerminal(env) ==> foreign == [])
  }

  /** Without foreign rows, what a run leaves is what the UI draws. */
  lemma OwnRowsOnly(env: Env, schedule: seq<Action>, mode: Mode, base: seq<Row>, target: string, rows: seq<Row>)
    requires Allowed(env, schedule) && After(env, schedule).channel.hungUp
    requires LeavesRows(env, schedule, mode, base, target, [], rows)
    ensures rows[|base|..] == ScreenAfter(mode, [], target, After(env, schedule).channel.received)
    ensures rows == ScreenAfter(mode, base, target, After(env, schedule).channel.received)
  {
    BaseIsKept(mode, base, UpdateAll(mode, Blank(target), After(env, schedule).channel.received));
  }

  /** A completed run with an error, where QEMU wrote nothing to the terminal, shows it,
      whole and in order, below the rows that were there before, exactly if the UI is
      off, the command's output was asked for, the verdict is not a pass, or at least
      three lines came after the end of the command. */
  lemma FailureIsVisibleIff(env: Env, schedule: seq<Action>, mode: Mode, base: seq<Row>, target: string,
                            rows: seq<Row>)
    requires Allowed(env, schedule) && After(env, schedule).channel.hungUp
    requires LeavesRows(env, schedule, mode, base, target, [], rows)
    requires ErrorOf(mode, FateOf(env)).Some?
    ensures base <= rows
    ensures Contains(rows[|base|..], ErrorRows(mode, ErrorOf(mode, FateOf(env)).value)) <==>
      || !mode.enabled || mode.showCmd || VerdictOf(FateOf(env)) != Some(0)
      || TrailingLines(After(env, schedule).channel.received) >= 3
  {
    OwnRowsOnly(env, schedule, mode, base, target, rows);
    ErrorShownIff(env, schedule, mode, target);
  }

  /** Where an interactive QEMU shares the terminal, all rows of the error are shown in
      order, whatever it writes; and with the UI on, as a whole, since QEMU is gone when
      the last stage is redrawn. */
  lemma SharedFailureIsVisible(env: Env, schedule: seq<Action>, mode: Mode, base: seq<Row>, target: string,
                               foreign: seq<Row>, rows: seq<Row>)
    requires Allowed(env, schedule) && After(env, schedule).channel.hungUp
    requires LeavesRows(env, schedule, mode, base, target, foreign, rows)
    requires ErrorOf(mode, FateOf(env)).Some? && SharesTerminal(env)
    ensures base <= rows
    ensures Within(ErrorRows(mode, ErrorOf(mode, FateOf(env)).value), rows[|base|..])
    ensures mode.enabled && env.reaps ==>
      Contains(rows[|base|..], ErrorRows(mode, ErrorOf(mode, FateOf(env)).value))
  {
    var r := After(env, schedule).channel.received;
    var p, err := UpdateAll(mode, Blank(target), r), ErrorRows(mode, ErrorOf(mode, FateOf(env)).value);
    InteractiveErrorStays(mode, target, FateOf(env));
    if mode.enabled {
      FinalPage(env, schedule, mode, target);
      SkeletonDone(p, PageOf(mode, target, FateOf(env)));
      ErrorInLastStage(env, schedule, mode, target);
      AmongRows(rows[|base|..], p.current.lines, err);
    } else {
      ErrorShown(env, schedule, mode, target);
      BaseIsKept(mode, base, p);
      assert FinalRows(mode, base, p)[|base|..] == FinalRows(mode, [], p);
      ContainedIsWithin(ScreenAfter(mode, [], target, r), err);
      WithinTrans(err, ScreenAfter(mode, [], target, r), rows[|base|..]);
    }
  }

  lemma InteractiveErrorStays(mode: Mode, target: string, f: Fate)
    requires ErrorOf(mode, f).Some? && !f.Exits?
    ensures NothingErased(mode, f) && PageOf(mode, target, f).current.expand && PageOf(mode, target, f).rc == None
  {
  }

  lemma AmongRows(rows: seq<Row>, lines: seq<Row>, block: seq<Row>)
    requires Contains(lines, block) && Within(lines, rows)
    ensures Within(block, rows)
    ensures Contains(rows, lines) ==> Contains(rows, block)
  {
    ContainedIsWithin(lines, block);
    WithinTrans(block, lines, rows);
    if above: seq<Row>, below: seq<Row> :| rows == above + lines + below {
      ContainedBetween(above, lines, below, block);
    }
  }

  // -------------------------------------------------------------- passing screens

  /** A page on an enabled terminal: headings, and the lines of the last stage if expanded. */
  lemma FinalBody(base: seq<Row>, p: Page)
    requires forall s | s in p.done :: !s.expand
    ensures |LeftAll(true, p.done)| == |p.done|
    ensures p.done != [] ==> LeftAll(true, p.done)[0] == p.done[0].heading
    ensures base + LeftAll(true, p.done) + Left(true, p.current)
         == base + (LeftAll(true, p.done) + [p.current.heading])
            + if p.current.expand then p.current.lines else []
  {
    UnexpandedLeavesHeadings(p.done);
  }

  lemma SkeletonDone(p: Page, q: Page)
    requires Skeleton(p) == q
    ensures |p.done| == |q.done|
    ensures forall i | 0 <= i < |p.done| ::
      p.done[i].heading == q.done[i].heading && p.done[i].expand == q.done[i].expand
    ensures p.current.heading == q.current.heading && p.current.expand == q.current.expand && p.rc == q.rc
  {
    assert Bare(p.done) == q.done;
  }

  /** The rows that "erase `stages` rows, print PASS" leaves. */
  lemma PassErases(mode: Mode, base: seq<Row>, p: Page)
    requires mode.enabled && !mode.showCmd && p.rc == Some(0)
    requires p.done != [] && forall s | s in p.done :: !s.expand
    ensures var rows := FinalRows(mode, base, p);
      && (!p.current.expand ==> rows == base + [p.done[0].heading, PASS])
      && (p.current.expand ==> |rows| == |base| + 2 + |p.current.lines|)
  {
    FinalBody(base, p);
    var headings := LeftAll(true, p.done) + [p.current.heading];
    var n := |p.done|;
    var body := base + headings + if p.current.expand then p.current.lines else [];
    assert FinalRows(mode, base, p) == body[..|body| - n] + [PASS];
    if !p.current.expand {
      assert body == base + headings;
      assert body[..|body| - n] == base + [headings[0]];
    }
  }

  /** With the UI on and the command's output not asked for, the UI by itself draws
      exactly the target heading and PASS for a run with verdict 0 if and only if it was
      interactive or its command really exited with 0. */
  lemma PassingRows(env: Env, schedule: seq<Action>, mode: Mode, base: seq<Row>, target: string)
    requires Allowed(env, schedule) && After(env, schedule).channel.hungUp
    requires mode.enabled && !mode.showCmd && VerdictOf(FateOf(env)) == Some(0)
    ensures ScreenAfter(mode, base, target, After(env, schedule).channel.received)
            == base + [Raw("=> " + target), Raw("PASS")]
        <==> FateOf(env).Shell? || FateOf(env) == Exits(0)
  {
    var f, p := FateOf(env), UpdateAll(mode, Blank(target), After(env, schedule).channel.received);
    FinalPage(env, schedule, mode, target);
    SkeletonDone(p, PageOf(mode, target, f));
    PageIsPlain(p, mode, target, f);
    PassErases(mode, base, p);
    HeadingTexts(target);
    if f.Exits? && f.code != 0 {
      var s, late := LastStageLines(env, schedule, mode, target);
      ErrorHasRows(mode, f);
      assert |p.current.lines| > 0;
    }
  }

  /** On every schedule, and whenever QEMU writes, such a run leaves the two-row screen
      if and only if it was interactive and QEMU wrote nothing to the terminal, or its
      command exited with 0. An interactive run leaves two rows and as many as QEMU
      wrote: erasing the stages by count erases just as many of these as it leaves
      headings. */
  lemma PassingScreen(env: Env, schedule: seq<Action>, mode: Mode, base: seq<Row>, target: string,
                      foreign: seq<Row>, rows: seq<Row>)
    requires Allowed(env, schedule) && After(env, schedule).channel.hungUp
    requires LeavesRows(env, schedule, mode, base, target, foreign, rows)
    requires mode.enabled && !mode.showCmd && VerdictOf(FateOf(env)) == Some(0)
    ensures base <= rows
    ensures rows == base + [Raw("=> " + target), Raw("PASS")] <==>
      (FateOf(env).Shell? && foreign == []) || FateOf(env) == Exits(0)
    ensures FateOf(env).Shell? ==> |rows| == |base| + 2 + |foreign|
  {
    PassingRows(env, schedule, mode, base, target);
  }

  /** An interactive run in which nobody uses the channel but the main thread. */
  const InteractiveRun := Env(true, None, None, [], None, None, None, None, None, [], None, None, [],
                              Exited([], 0), "", true, true)

  /** A single row on the console is enough to lose the two-row screen. */
  lemma OneConsoleRow(mode: Mode, base: seq<Row>, target: string, row: Row) returns (schedule: seq<Action>)
    requires mode.enabled && !mode.showCmd
    ensures Allowed(InteractiveRun, schedule) && After(InteractiveRun, schedule).channel.hungUp
    ensures LeavesRows(InteractiveRun, schedule, mode, base, target, [row],
                       base + [row] + [Raw("=> " + target), Raw("PASS")])
    ensures forall rows | LeavesRows(InteractiveRun, schedule, mode, base, target, [row], rows) ::
      |rows| == |base| + 3
  {
    schedule := CanComplete(InteractiveRun, []);
    assert FateOf(InteractiveRun) == Shell;
    var p := UpdateAll(mode, Blank(target), After(InteractiveRun, schedule).channel.received);
    FinalPage(InteractiveRun, schedule, mode, target);
    SkeletonDone(p, PageOf(mode, target, Shell));
    PassingRows(InteractiveRun, schedule, mode, base, target);
  }

  /** So a run whose exit code is a nonzero multiple of 2^32 is reported as passed. */
  lemma FalsePass(env: Env, schedule: seq<Action>, mode: Mode, target: string)
    requires Allowed(env, schedule) && After(env, schedule).channel.hungUp
    ensures Verdict(mode, target, After(env, schedule).channel.received) == Some(0) <==> Passes(FateOf(env))
  {
    VerdictIndependent(env, schedule, mode, target);
    if FateOf(env).Exits? {
      Wrap32Faithful(FateOf(env).code);
    }
  }

  const WRAPPED := 0x1_0000_0000

  /** A run in which nobody prints anything and the command exits with 2^32. */
  const WrappedExit := Env(false, None, None, [], None, None, None, None, None, [], None, None, [],
                           Exited([], WRAPPED), "", true, true)

  /** It is reported as passed, and on an enabled terminal its error is erased. */
  lemma FalsePassExample(mode: Mode, target: string) returns (schedule: seq<Action>)
    ensures Allowed(WrappedExit, schedule) && After(WrappedExit, schedule).channel.hungUp
    ensures var r := After(WrappedExit, schedule).channel.received;
      && Verdict(mode, target, r) == Some(0)
      && (mode.enabled && !mode.showCmd ==>
            !Contains(ScreenAfter(mode, [], target, r), ErrorRows(mode, ExitText(mode, WRAPPED))))
  {
    var env := WrappedExit;
    schedule := CanComplete(env, []);
    assert FateOf(env) == Exits(WRAPPED);
    FalsePass(env, schedule, mode, target);
    VerdictIndependent(env, schedule, mode, target);
    NoLinesAtAll(env, schedule);
    assert ErrorOf(mode, FateOf(env)) == Some(ExitText(mode, WRAPPED));
    ErrorShownIff(env, schedule, mode, target);
  }

  lemma NoLinesAtAll(env: Env, schedule: seq<Action>)
    requires env == WrappedExit && Allowed(env, schedule) && After(env, schedule).channel.hungUp
    ensures TrailingLines(After(env, schedule).channel.received) == 0
  {
    var r := After(env, schedule).channel.received;
    if TrailingLines(r) > 0 {
      ReceivedLines(env, schedule, r[|r| - 1]);
    }
  }

  // ------------------------------------------------------------ command output

  /** The rows of the command's lines, in the order received. */
  function CommandRows(mode: Mode, msgs: seq<Output>): seq<Row> {
    Collect(CommandRow(mode), msgs)
  }

  function CommandRow(mode: Mode): Output -> seq<Row> {
    (m: Output) => if m.Command? then [RowOf(mode.enabled, m.line, Dim)] else []
  }

  function CommandText(): Output -> seq<string> {
    (m: Output) => if m.Command? then [m.line] else []
  }

  lemma {:induction false} CommandTextMembers(msgs: seq<Output>, l: string)
    ensures l in Collect(CommandText(), msgs) <==> Command(l) in msgs
  {
    if msgs != [] {
      var n := |msgs| - 1;
      assert msgs == msgs[..n] + [msgs[n]];
      CommandTextMembers(msgs[..n], l);
    }
  }

  /** They are the rows of the texts of these lines, one each. */
  lemma {:induction false} CommandRowsAre(mode: Mode, msgs: seq<Output>)
    ensures CommandRows(mode, msgs) == RowsOf(mode.enabled, Collect(CommandText(), msgs), Dim)
  {
    if msgs != [] {
      var n := |msgs| - 1;
      CommandRowsAre(mode, msgs[..n]);
      RowsConcat(mode.enabled, Collect(CommandText(), msgs[..n]), CommandText()(msgs[n]));
    }
  }

  lemma RowsConcat(enabled: bool, a: seq<string>, b: seq<string>)
    ensures RowsOf(enabled, a + b, Dim) == RowsOf(enabled, a, Dim) + RowsOf(enabled, b, Dim)
  {
  }

  lemma {:induction false} NoCommandRows(mode: Mode, msgs: seq<Output>)
    requires forall m | m in msgs :: !m.Command?
    ensures CommandRows(mode, msgs) == []
  {
    if msgs != [] {
      assert msgs[|msgs| - 1] in msgs;
      NoCommandRows(mode, msgs[..|msgs| - 1]);
    }
  }

  lemma {:induction false} CommandRowsAreDrawn(mode: Mode, msgs: seq<Output>)
    ensures Within(CommandRows(mode, msgs), DrawnAll(mode, msgs))
  {
    if msgs != [] {
      var n := |msgs| - 1;
      var xs, ys := CommandRows(mode, msgs[..n]), DrawnAll(mode, msgs[..n]);
      CommandRowsAreDrawn(mode, msgs[..n]);
      if msgs[n].Command? {
        WithinBoth(xs, ys, RowOf(mode.enabled, msgs[n].line, Dim));
      } else {
        WithinMore(xs, ys, Drawn(mode, msgs[n]));
        assert xs + [] == xs;
      }
    }
  }

  /** A completed run that gets to its command, split where the command starts. */
  lemma AtCommandStart(f: Fate, r: seq<Output>) returns (before: seq<Output>, rest: seq<Output>)
    requires Controls(r) == ControlsOf(f) && CommandStart in ControlsOf(f)
    ensures r == before + [CommandStart] + rest && CommandStart !in before
    ensures forall m | m in rest :: !StartsStage(m)
  {
    var front, late := AtLastWord(f, r);
    var mid;
    CommandStartIsLast(f, Controls(front));
    before, mid := SplitAtCommandStart(front);
    EndStartsNothing(f, late);
    rest := mid + ([LastWord(f)] + late);
    Associates(before + [CommandStart], mid, [LastWord(f)] + late);
    NothingStarts(mid, [LastWord(f)] + late);
  }

  lemma NothingStarts(mid: seq<Output>, end: seq<Output>)
    requires forall m | m in mid :: m.IsLine()
    requires forall m | m in end :: !StartsStage(m)
    ensures forall m | m in mid + end :: !StartsStage(m)
  {
  }

  lemma CommandStartIsLast(f: Fate, c: seq<Output>)
    requires c + [LastWord(f)] == ControlsOf(f) && CommandStart in ControlsOf(f)
    ensures c == [BootStart, BootEnd(Ok(())), SetupStart, SetupEnd(Ok(())), CommandStart]
  {
    assert c == ControlsOf(f)[..|ControlsOf(f)| - 1];
  }

  lemma SplitAtCommandStart(front: seq<Output>) returns (before: seq<Output>, mid: seq<Output>)
    requires Controls(front) == [BootStart, BootEnd(Ok(())), SetupStart, SetupEnd(Ok(())), CommandStart]
    ensures front == before + [CommandStart] + mid && CommandStart !in before
    ensures forall m | m in mid :: m.IsLine()
  {
    var c;
    before, c, mid := LastControl(front);
    var early := Controls(before);
    assert c == (early + [c])[4] && early == (early + [c])[..4];
    forall m | m in before ensures m != CommandStart {
      if m == CommandStart { ControlsKeepMembers(before, m); }
    }
  }

  /** No line of the command comes before its start. */
  ghost predicate CommandsFollowStart(r: seq<Output>) {
    forall i | 0 <= i < |r| && r[i].Command? :: CommandStart in r[..i]
  }

  lemma CommandsFollow(env: Env, schedule: seq<Action>)
    requires Allowed(env, schedule)
    ensures CommandsFollowStart(After(env, schedule).channel.received)
  {
    var r := After(env, schedule).channel.received;
    forall i | 0 <= i < |r| && r[i].Command? ensures CommandStart in r[..i] {
      LinePlacement(env, schedule, i);
    }
  }

  lemma NoCommandBefore(mode: Mode, before: seq<Output>, rest: seq<Output>)
    requires CommandsFollowStart(before + rest) && CommandStart !in before
    ensures CommandRows(mode, before) == []
  {
    forall m | m in before ensures !m.Command? {
      var i :| 0 <= i < |before| && before[i] == m;
      assert (before + rest)[i] == m && (before + rest)[..i] == before[..i];
    }
    NoCommandRows(mode, before);
  }

  /** All the command's lines belong to the last stage. */
  lemma CommandsInLastStage(mode: Mode, f: Fate, r: seq<Output>)
    requires Controls(r) == ControlsOf(f) && CommandsFollowStart(r) && CommandStart in ControlsOf(f)
    ensures CommandRows(mode, r) == CommandRows(mode, SinceStart(r))
  {
    var before, rest := AtCommandStart(f, r);
    Associates(before, [CommandStart], rest);
    NoCommandBefore(mode, before, [CommandStart] + rest);
    CollectConcat(CommandRow(mode), before + [CommandStart], rest);
    CollectConcat(CommandRow(mode), before, [CommandStart]);
    CollectOne(CommandRow(mode), CommandStart);
    SinceStartConcat(before + [CommandStart], rest);
    assert SinceStart(before + [CommandStart]) == [];
    assert [] + rest == rest && [] + CommandRows(mode, rest) == CommandRows(mode, rest);
  }

  lemma NoCommands(mode: Mode, f: Fate, r: seq<Output>)
    requires Controls(r) == ControlsOf(f) && CommandsFollowStart(r) && CommandStart !in ControlsOf(f)
    ensures CommandRows(mode, r) == []
  {
    if CommandStart in r { ControlsKeepMembers(r, CommandStart); }
    NoCommandBefore(mode, r, []);
  }

  lemma ExpandedForCommand(mode: Mode, target: string, f: Fate)
    requires mode.enabled && NothingErased(mode, f) && CommandStart in ControlsOf(f)
    ensures PageOf(mode, target, f).current.expand
  {
    if f.Exits? {
      Wrap32Faithful(f.code);
    }
  }

  lemma LinesStay(mode: Mode, p: Page, xs: seq<Row>)
    requires Within(xs, p.current.lines) && (p.current.expand || !mode.enabled)
    requires mode.showCmd || p.rc != Some(0) || !mode.enabled
    ensures Within(xs, FinalRows(mode, [], p))
  {
    var above, lines := [] + LeftAll(mode.enabled, p.done) + [p.current.heading], p.current.lines;
    var below := if mode.showCmd || p.rc.None? then [] else if p.rc.value == 0 then [PASS] else [FAILED];
    assert FinalRows(mode, [], p) == above + lines + below;
    WithinBelow(above, xs, lines);
    WithinMore(xs, above + lines, below);
  }

  /** Unless the final erasing comes into play, every completed run leaves every line of
      the command that was received on the terminal, in order. */
  lemma CommandOutputShown(env: Env, schedule: seq<Action>, mode: Mode, base: seq<Row>, target: string,
                           foreign: seq<Row>, rows: seq<Row>)
    requires Allowed(env, schedule) && After(env, schedule).channel.hungUp
    requires LeavesRows(env, schedule, mode, base, target, foreign, rows)
    requires NothingErased(mode, FateOf(env))
    ensures base <= rows && Within(CommandRows(mode, After(env, schedule).channel.received), rows[|base|..])
  {
    if SharesTerminal(env) {
      NoCommandsShared(env, schedule, mode);
    } else {
      CommandOutputDrawn(env, schedule, mode, target);
      OwnRowsOnly(env, schedule, mode, base, target, rows);
    }
  }

  lemma NoCommandsShared(env: Env, schedule: seq<Action>, mode: Mode)
    requires Allowed(env, schedule) && After(env, schedule).channel.hungUp && SharesTerminal(env)
    ensures CommandRows(mode, After(env, schedule).channel.received) == []
  {
    ControlLanguage(env, schedule);
    CommandsFollow(env, schedule);
    OnlyCommandsStart(FateOf(env));
    NoCommands(mode, FateOf(env), After(env, schedule).channel.received);
  }

  lemma OnlyCommandsStart(f: Fate)
    ensures CommandStart in ControlsOf(f) ==> f.CommandFails? || f.Exits?
  {
  }

  lemma CommandOutputDrawn(env: Env, schedule: seq<Action>, mode: Mode, target: string)
    requires Allowed(env, schedule) && After(env, schedule).channel.hungUp
    requires NothingErased(mode, FateOf(env))
    ensures var r := After(env, schedule).channel.received;
      Within(CommandRows(mode, r), ScreenAfter(mode, [], target, r))
  {
    var f, r := FateOf(env), After(env, schedule).channel.received;
    var p := UpdateAll(mode, Blank(target), r);
    ControlLanguage(env, schedule);
    CommandsFollow(env, schedule);
    if CommandStart in ControlsOf(f) {
      CommandsInLastStage(mode, f, r);
      CommandRowsAreDrawn(mode, SinceStart(r));
      StageLines(mode, target, r);
      FinalPage(env, schedule, mode, target);
      SkeletonDone(p, PageOf(mode, target, f));
      if mode.enabled { ExpandedForCommand(mode, target, f); }
      LinesStay(mode, p, CommandRows(mode, r));
    } else {
      NoCommands(mode, f, r);
    }
  }
}
