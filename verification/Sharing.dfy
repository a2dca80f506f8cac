/** A terminal that another program writes to as well: an interactive QEMU shares the
    one that the UI erases and redraws. `own` are the rows that the UI would have left
    by itself, `foreign` those of the other program. */
module Sharing {
  import opened Messages
  import opened Screen

  // ----------------------------------------------------------- rows among others

  /** `block` appears in `rows` as a whole, in order. */
  ghost predicate Contains(rows: seq<Row>, block: seq<Row>) {
    exists above: seq<Row>, below: seq<Row> :: rows == above + block + below
  }

  lemma ContainedBetween(above: seq<Row>, rows: seq<Row>, below: seq<Row>, block: seq<Row>)
    requires Contains(rows, block)
    ensures Contains(above + rows + below, block)
  {
    var a: seq<Row>, b: seq<Row> :| rows == a + block + b;
    assert above + rows + below == (above + a) + block + (b + below);
  }

  /** `xs` is a subsequence of `ys`. */
  predicate Within(xs: seq<Row>, ys: seq<Row>)
    decreases |ys|
  {
    xs == [] ||
    (ys != [] &&
      var m, n := |xs| - 1, |ys| - 1;
      Within(xs, ys[..n]) || (xs[m] == ys[n] && Within(xs[..m], ys[..n])))
  }

  lemma {:induction false} WithinMore(xs: seq<Row>, ys: seq<Row>, more: seq<Row>)
    requires Within(xs, ys)
    ensures Within(xs, ys + more)
    decreases |more|
  {
    if more == [] {
      assert ys + more == ys;
    } else {
      var n := |more| - 1;
      WithinMore(xs, ys, more[..n]);
      assert (ys + more)[..|ys + more| - 1] == ys + more[..n];
    }
  }

  lemma WithinBoth(xs: seq<Row>, ys: seq<Row>, row: Row)
    requires Within(xs, ys)
    ensures Within(xs + [row], ys + [row])
  {
    assert (xs + [row])[..|xs|] == xs && (ys + [row])[..|ys|] == ys;
  }

  lemma {:induction false} WithinBelow(above: seq<Row>, xs: seq<Row>, ys: seq<Row>)
    requires Within(xs, ys)
    ensures Within(xs, above + ys)
    decreases |ys|
  {
    if xs != [] {
      var m, n := |xs| - 1, |ys| - 1;
      assert (above + ys)[..|above| + n] == above + ys[..n];
      if Within(xs, ys[..n]) {
        WithinBelow(above, xs, ys[..n]);
      } else {
        WithinBelow(above, xs[..m], ys[..n]);
      }
    }
  }

  lemma {:induction false} WithinItself(xs: seq<Row>)
    ensures Within(xs, xs)
  {
    if xs != [] { WithinItself(xs[..|xs| - 1]); }
  }

  lemma {:induction false} WithinTrans(xs: seq<Row>, ys: seq<Row>, zs: seq<Row>)
    requires Within(xs, ys) && Within(ys, zs)
    ensures Within(xs, zs)
    decreases |zs|
  {
    if xs != [] {
      var l, m, n := |xs| - 1, |ys| - 1, |zs| - 1;
      if Within(ys, zs[..n]) {
        WithinTrans(xs, ys, zs[..n]);
      } else if Within(xs, ys[..m]) {
        WithinTrans(xs, ys[..m], zs[..n]);
      } else {
        WithinTrans(xs[..l], ys[..m], zs[..n]);
      }
    }
  }

  lemma ContainedIsWithin(rows: seq<Row>, block: seq<Row>)
    requires Contains(rows, block)
    ensures Within(block, rows)
  {
    var a: seq<Row>, b: seq<Row> :| rows == a + block + b;
    WithinItself(block);
    WithinBelow(a, block, block);
    WithinMore(block, a + block, b);
  }

  // --------------------------------------------------------- what is kept in sharing

  /** What holds of the rows of a shared terminal, whenever the other program writes:
      the rows that were there first stay, the heights add up, and without the UI no
      row is lost. */
  ghost predicate Shares(enabled: bool, base: seq<Row>, own: seq<Row>, foreign: seq<Row>, rows: seq<Row>) {
    && base <= own && base <= rows && |rows| == |own| + |foreign|
    && (foreign == [] ==> rows == own)
    && (!enabled ==> Within(own[|base|..], rows[|base|..]))
  }

  lemma ForeignWritten(enabled: bool, base: seq<Row>, own: seq<Row>, foreign: seq<Row>, rows: seq<Row>,
                       more: seq<Row>)
    requires Shares(enabled, base, own, foreign, rows)
    ensures Shares(enabled, base, own, foreign + more, rows + more)
  {
    if !enabled {
      WithinMore(own[|base|..], rows[|base|..], more);
      assert (rows + more)[|base|..] == rows[|base|..] + more;
    }
  }

  lemma OwnWritten(enabled: bool, base: seq<Row>, own: seq<Row>, foreign: seq<Row>, rows: seq<Row>, row: Row)
    requires Shares(enabled, base, own, foreign, rows)
    ensures Shares(enabled, base, own + [row], foreign, rows + [row])
  {
    if !enabled {
      WithinBoth(own[|base|..], rows[|base|..], row);
      assert (rows + [row])[|base|..] == rows[|base|..] + [row];
      assert (own + [row])[|base|..] == own[|base|..] + [row];
    }
  }

  /** Erasing as many rows as one has oneself never reaches those that were there
      first, whoever wrote the rows erased. */
  lemma OwnErased(base: seq<Row>, own: seq<Row>, foreign: seq<Row>, rows: seq<Row>, n: nat)
    requires Shares(true, base, own, foreign, rows) && n <= |own| - |base|
    ensures Shares(true, base, Erase(true, own, n), foreign, Erase(true, rows, n))
  {
  }

  /** What a target leaves on the terminal, `gone` saying that the other program has
      ended before the channel hangs up: the last stage's lines, if it is expanded and
      not erased, are there in order, and then even as a whole. */
  ghost predicate Leaves(mode: Mode, base: seq<Row>, target: string, msgs: seq<Output>, gone: bool,
                         foreign: seq<Row>, rows: seq<Row>)
  {
    var p := UpdateAll(mode, Blank(target), msgs);
    && Shares(mode.enabled, base, FinalRows(mode, base, p), foreign, rows)
    && (mode.enabled ==> LastStageLeft(mode, p, gone, rows[|base|..]))
  }

  ghost predicate LastStageLeft(mode: Mode, p: Page, gone: bool, rows: seq<Row>) {
    p.current.expand && (mode.showCmd || p.rc != Some(0)) ==>
      Within(p.current.lines, rows) && (gone ==> Contains(rows, p.current.lines))
  }
}
