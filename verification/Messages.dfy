/** The update alphabet sent over the channel, and its control/line split. */
module Messages {
  import opened Text

  datatype Option<+T> = None | Some(value: T)

  /** `anyhow::Result`; an error is represented by its `{:?}` rendering. */
  datatype Result<+T> = Ok(value: T) | Err(text: string)

  datatype Output =
    | BootStart
    | Boot(line: string)
    | BootEnd(boot: Result<()>)
    | SetupStart
    | Setup(line: string)
    | SetupEnd(setup: Result<()>)
    | CommandStart
    | Command(line: string)
    | CommandEnd(command: Result<int>)
  {
    predicate IsLine() { Boot? || Setup? || Command? }

    /** The position of the variant in the definition of the alphabet. */
    function Order(): nat {
      match this
      case BootStart => 0
      case Boot(_) => 1
      case BootEnd(_) => 2
      case SetupStart => 3
      case Setup(_) => 4
      case SetupEnd(_) => 5
      case CommandStart => 6
      case Command(_) => 7
      case CommandEnd(_) => 8
    }

    /** A failure is an `Err` in one of the `*End` variants. */
    predicate IsFailure() {
      (BootEnd? && boot.Err?) || (SetupEnd? && setup.Err?) || (CommandEnd? && command.Err?)
    }

    /** The assertion of `print_line` holds for the line carried, if any. */
    predicate Printable() {
      IsLine() ==> AtMostOneLine(line)
    }
  }

  /** The variants that carry lines. */
  datatype LineKind = BootLine | SetupLine | CommandLine {
    function Of(line: string): Output {
      match this
      case BootLine => Boot(line)
      case SetupLine => Setup(line)
      case CommandLine => Command(line)
    }
  }

  function Wrapped(kind: LineKind, lines: seq<string>): seq<Output> {
    seq(|lines|, i requires 0 <= i < |lines| => kind.Of(lines[i]))
  }

  lemma WrappedConcat(kind: LineKind, a: seq<string>, b: seq<string>)
    ensures Wrapped(kind, a + b) == Wrapped(kind, a) + Wrapped(kind, b)
  {
  }

  /** The messages that are not lines, in order. */
  function Controls(msgs: seq<Output>): (r: seq<Output>)
    ensures forall m | m in r :: m in msgs && !m.IsLine()
  {
    if msgs == [] then []
    else (if msgs[0].IsLine() then [] else [msgs[0]]) + Controls(msgs[1..])
  }

  lemma {:induction false} ControlsConcat(a: seq<Output>, b: seq<Output>)
    ensures Controls(a + b) == Controls(a) + Controls(b)
  {
    if a == [] {
      assert a + b == b;
    } else {
      var whole := a + b;
      assert whole[0] == a[0] && whole[1..] == a[1..] + b;
      ControlsConcat(a[1..], b);
    }
  }

  lemma {:induction false} LinesHaveNoControls(msgs: seq<Output>)
    requires forall m | m in msgs :: m.IsLine()
    ensures Controls(msgs) == []
  {
    if msgs != [] {
      assert msgs[0] in msgs;
      LinesHaveNoControls(msgs[1..]);
    }
  }

  /** How many lines follow the last control message. */
  function TrailingLines(msgs: seq<Output>): (n: nat)
    ensures n <= |msgs|
  {
    if msgs == [] || !msgs[|msgs| - 1].IsLine() then 0 else 1 + TrailingLines(msgs[..|msgs| - 1])
  }

  lemma ControlsOneMore(front: seq<Output>, m: Output)
    ensures Controls(front + [m]) == Controls(front) + if m.IsLine() then [] else [m]
  {
    ControlsConcat(front, [m]);
    assert [m][1..] == [];
    assert Controls([m]) == (if m.IsLine() then [] else [m]) + Controls([m][1..]);
  }

  /** Splits a message list at its last control message. */
  lemma {:induction false} LastControl(msgs: seq<Output>) returns (before: seq<Output>, c: Output, later: seq<Output>)
    requires Controls(msgs) != []
    ensures msgs == before + [c] + later && Controls(msgs) == Controls(before) + [c]
    ensures |later| == TrailingLines(msgs) && forall m | m in later :: m.IsLine()
  {
    var n := |msgs| - 1;
    var front, m := msgs[..n], msgs[n];
    assert msgs == front + [m];
    ControlsOneMore(front, m);
    if m.IsLine() {
      var more;
      before, c, more := LastControl(front);
      later := more + [m];
      assert before + [c] + more + [m] == before + [c] + later;
    } else {
      before, c, later := front, m, [];
    }
  }

  /** The results of a function on each message, one after the other. */
  function Collect<T>(f: Output -> seq<T>, msgs: seq<Output>): seq<T> {
    if msgs == [] then [] else Collect(f, msgs[..|msgs| - 1]) + f(msgs[|msgs| - 1])
  }

  lemma {:induction false} CollectConcat<T>(f: Output -> seq<T>, a: seq<Output>, b: seq<Output>)
    ensures Collect(f, a + b) == Collect(f, a) + Collect(f, b)
  {
    if b == [] {
      assert a + b == a;
    } else {
      var n := |b| - 1;
      assert (a + b)[..|a| + n] == a + b[..n] && (a + b)[|a| + n] == b[n];
      CollectConcat(f, a, b[..n]);
    }
  }

  lemma CollectOne<T>(f: Output -> seq<T>, m: Output)
    ensures Collect(f, [m]) == f(m)
  {
    assert [m][..0] == [];
    assert Collect(f, [m]) == [] + f(m);
  }

  lemma {:induction false} ControlsKeepMembers(msgs: seq<Output>, m: Output)
    requires m in msgs && !m.IsLine()
    ensures m in Controls(msgs)
  {
    if msgs[0] != m {
      assert msgs == [msgs[0]] + msgs[1..];
      ControlsKeepMembers(msgs[1..], m);
    }
  }
}
