/** The two reader threads' line splitters: `stream_command_output` and
    `stream_child_output`. */
module Streams {
  import opened Messages
  import opened Text

  /** One unit of a byte stream: a decoded character, or bytes that are not UTF-8. */
  datatype Unit = Char(c: char) | Invalid

  const NEWLINE := Char('\n')

  function Decode(s: seq<Unit>): (r: string)
    requires Invalid !in s
    ensures |r| == |s|
    ensures forall i | 0 <= i < |s| :: Char(r[i]) == s[i]
  {
    assert forall i | 0 <= i < |s| :: s[i].Char? by {
      forall i | 0 <= i < |s| ensures s[i].Char? { assert s[i] in s; }
    }
    seq(|s|, i requires 0 <= i < |s| => s[i].c)
  }

  /** The bytes one `read_line` consumes: up to and including the first newline. */
  function Chunk(s: seq<Unit>): (chunk: seq<Unit>)
    requires s != []
    ensures chunk != [] && chunk <= s
    ensures NEWLINE !in chunk[..|chunk| - 1]
    ensures chunk == s || chunk[|chunk| - 1] == NEWLINE
  {
    var i := IndexOf(s, NEWLINE);
    if i < |s| then assert s[..i + 1][..i] == s[..i]; s[..i + 1] else assert s[..|s| - 1] == s[..i][..|s| - 1]; s
  }

  /** `read_line` fails on a chunk that is not UTF-8, having consumed it. */
  function ReadLine(s: seq<Unit>): (line: Option<string>)
    requires s != []
    ensures line.Some? <==> Invalid !in Chunk(s)
    ensures line.Some? ==> line.value != ""
  {
    if Invalid in Chunk(s) then None else Some(Decode(Chunk(s)))
  }

  /** How a splitter takes the newline off a line that was read. */
  datatype Trim = TrimNewline | PopLast {
    function Apply(line: string): string
      requires line != ""
    {
      if PopLast? || line[|line| - 1] == '\n' then line[..|line| - 1] else line
    }
  }

  /** What a splitter sends for one chunk: its line, or nothing if it was not UTF-8. */
  function LinesOfChunk(chunk: seq<Unit>, trim: Trim): seq<string>
    requires chunk != []
  {
    if Invalid in chunk then [] else [trim.Apply(Decode(chunk))]
  }

  /** Every line a splitter sends for a stream that ends in end-of-file. */
  function StreamLines(s: seq<Unit>, trim: Trim): seq<string>
    decreases |s|
  {
    if s == [] then []
    else
      var chunk := Chunk(s);
      LinesOfChunk(chunk, trim) + StreamLines(s[|chunk|..], trim)
  }

  /** One iteration of either splitter loop. */
  lemma Extend(sent: seq<string>, rest: seq<Unit>, trim: Trim)
    requires rest != []
    ensures var line, tail := ReadLine(rest), rest[|Chunk(rest)|..];
      sent + StreamLines(rest, trim) ==
      (if line.Some? then sent + [trim.Apply(line.value)] else sent) + StreamLines(tail, trim)
  {
    var now, tail := LinesOfChunk(Chunk(rest), trim), StreamLines(rest[|Chunk(rest)|..], trim);
    assert StreamLines(rest, trim) == now + tail;
    Associates(sent, now, tail);
  }

  method StreamCommandOutput(stream: seq<Unit>) returns (sent: seq<string>)
    ensures sent == StreamLines(stream, TrimNewline)
  {
    sent := [];
    var rest := stream;
    while rest != []
      invariant sent + StreamLines(rest, TrimNewline) == StreamLines(stream, TrimNewline)
      decreases |rest|
    {
      Extend(sent, rest, TrimNewline);
      var read, n := ReadLine(rest), |Chunk(rest)|;
      rest := rest[n..];
      if read.Some? {
        var line := read.value;
        if line[|line| - 1] == '\n' {
          line := line[..|line| - 1];
        }
        sent := sent + [line];
      }
    }
  }

  method StreamChildOutput(stream: seq<Unit>) returns (sent: seq<string>)
    ensures sent == StreamLines(stream, PopLast)
  {
    sent := [];
    var rest := stream;
    while rest != []
      invariant sent + StreamLines(rest, PopLast) == StreamLines(stream, PopLast)
      decreases |rest|
    {
      Extend(sent, rest, PopLast);
      var read, n := ReadLine(rest), |Chunk(rest)|;
      rest := rest[n..];
      if read.Some? {
        var line := read.value;
        assert PopLast.Apply(line) == line[..|line| - 1];
        line := line[..|line| - 1];
        sent := sent + [line];
      }
    }
  }

  // ------------------------------------------------------------- properties

  /** Each line followed by a newline. */
  function Unlines(lines: seq<string>): string {
    if lines == [] then "" else lines[0] + "\n" + Unlines(lines[1..])
  }

  function Terminated(s: string): string {
    if s == "" || s[|s| - 1] == '\n' then s else s + "\n"
  }

  lemma UnlinesCons(line: string, lines: seq<string>)
    ensures Unlines([line] + lines) == line + "\n" + Unlines(lines)
  {
    assert ([line] + lines)[1..] == lines;
  }

  lemma DecodeConcat(a: seq<Unit>, b: seq<Unit>)
    requires Invalid !in a && Invalid !in b
    ensures Invalid !in a + b && Decode(a + b) == Decode(a) + Decode(b)
  {
    var l, r := Decode(a + b), Decode(a) + Decode(b);
    forall i | 0 <= i < |l| ensures l[i] == r[i] {
      assert Char(l[i]) == (a + b)[i];
      assert i < |a| ==> Char(Decode(a)[i]) == a[i];
      assert i >= |a| ==> Char(Decode(b)[i - |a|]) == b[i - |a|];
    }
  }

  /** The first step of a splitter on a valid stream: one line, then the rest. */
  lemma FirstLine(s: seq<Unit>, trim: Trim) returns (line: string, rest: seq<Unit>)
    requires s != [] && Invalid !in s
    ensures |rest| < |s| && Invalid !in rest && line != ""
    ensures StreamLines(s, trim) == [trim.Apply(line)] + StreamLines(rest, trim)
    ensures Decode(s) == line + Decode(rest)
    ensures rest == [] || line[|line| - 1] == '\n'
  {
    var chunk := Chunk(s);
    rest := s[|chunk|..];
    assert s == chunk + rest;
    DecodeConcat(chunk, rest);
    line := Decode(chunk);
    assert Char(line[|line| - 1]) == chunk[|chunk| - 1];
  }

  lemma TerminatedStep(line: string, rest: string)
    requires line != "" && (rest == "" || line[|line| - 1] == '\n')
    ensures TrimNewline.Apply(line) + "\n" + Terminated(rest) == Terminated(line + rest)
  {
    if line[|line| - 1] == '\n' {
      assert TrimNewline.Apply(line) + "\n" == line;
    }
    if rest == "" {
      assert line + rest == line;
      assert line + "\n" + "" == line + "\n";
    } else {
      assert (line + rest)[|line + rest| - 1] == rest[|rest| - 1];
      assert (line + rest) + "\n" == line + (rest + "\n");
    }
  }

  /** The command splitter loses nothing: its lines spell the stream, plus a
      final newline if that was missing. */
  lemma {:induction false} CommandLinesRoundTrip(s: seq<Unit>)
    requires Invalid !in s
    ensures Unlines(StreamLines(s, TrimNewline)) == Terminated(Decode(s))
    decreases |s|
  {
    if s != [] {
      var line, rest := FirstLine(s, TrimNewline);
      CommandLinesRoundTrip(rest);
      UnlinesCons(TrimNewline.Apply(line), StreamLines(rest, TrimNewline));
      TerminatedStep(line, Decode(rest));
    }
  }

  /** `s` with its last character replaced by a newline. */
  function LastReplaced(s: string): string {
    if s == "" then "" else s[..|s| - 1] + "\n"
  }

  lemma ReplacedStep(line: string, rest: string)
    requires line != "" && (rest == "" || line[|line| - 1] == '\n')
    ensures PopLast.Apply(line) + "\n" + LastReplaced(rest) == LastReplaced(line + rest)
  {
    if rest == "" {
      assert line + rest == line;
    } else {
      assert PopLast.Apply(line) + "\n" == line;
      assert (line + rest)[..|line + rest| - 1] == line + rest[..|rest| - 1];
    }
  }

  /** The boot-log splitter replaces the last character of the stream by a newline. */
  lemma {:induction false} BootLinesSpell(s: seq<Unit>)
    requires Invalid !in s
    ensures Unlines(StreamLines(s, PopLast)) == LastReplaced(Decode(s))
    decreases |s|
  {
    if s != [] {
      var line, rest := FirstLine(s, PopLast);
      BootLinesSpell(rest);
      UnlinesCons(PopLast.Apply(line), StreamLines(rest, PopLast));
      ReplacedStep(line, Decode(rest));
    }
  }

  lemma ReplacingChanges(s: string)
    requires s != ""
    ensures LastReplaced(s) == s <==> s[|s| - 1] == '\n'
  {
    assert s == s[..|s| - 1] + [s[|s| - 1]];
    assert LastReplaced(s)[|s| - 1] == '\n';
  }

  /** So it is faithful exactly on the streams whose last line is terminated. */
  lemma BootLinesRoundTripIff(s: seq<Unit>)
    requires Invalid !in s
    ensures Unlines(StreamLines(s, PopLast)) == Decode(s)
            <==> (s == [] || s[|s| - 1] == NEWLINE)
  {
    BootLinesSpell(s);
    ReplacedIff(Decode(s));
    if s != [] { LastOfDecoded(s); }
  }

  lemma ReplacedIff(text: string)
    ensures LastReplaced(text) == text <==> text == "" || text[|text| - 1] == '\n'
  {
    if text != "" { ReplacingChanges(text); }
  }

  lemma LastOfDecoded(s: seq<Unit>)
    requires s != [] && Invalid !in s
    ensures Decode(s)[|s| - 1] == '\n' <==> s[|s| - 1] == NEWLINE
  {
    assert Char(Decode(s)[|s| - 1]) == s[|s| - 1];
  }

  lemma StreamStep(s: seq<Unit>, chunk: seq<Unit>, rest: seq<Unit>, trim: Trim)
    requires s != [] && chunk == Chunk(s) && rest == s[|chunk|..]
    ensures StreamLines(s, trim) == LinesOfChunk(chunk, trim) + StreamLines(rest, trim)
  {
  }

  /** The first chunk of a list of whole lines, and what is left of it. */
  lemma FirstOfWholeLines(a: seq<Unit>) returns (chunk: seq<Unit>, rest: seq<Unit>)
    requires a != [] && a[|a| - 1] == NEWLINE
    ensures chunk != [] && chunk == Chunk(a) && a == chunk + rest
    ensures rest == [] || rest[|rest| - 1] == NEWLINE
  {
    chunk := Chunk(a);
    rest := a[|chunk|..];
  }

  /** Splitting is compositional at line boundaries. */
  lemma {:induction false} SplitAtLineBoundary(a: seq<Unit>, b: seq<Unit>, trim: Trim)
    requires a == [] || a[|a| - 1] == NEWLINE
    ensures StreamLines(a + b, trim) == StreamLines(a, trim) + StreamLines(b, trim)
    decreases |a|
  {
    if a == [] {
      assert a + b == b;
      assert [] + StreamLines(b, trim) == StreamLines(b, trim);
    } else {
      var chunk, rest := FirstOfWholeLines(a);
      SplitAtLineBoundary(rest, b, trim);
      FirstOfMore(a, chunk, rest, b);
      StreamStep(a, chunk, rest, trim);
      StreamStep(a + b, chunk, rest + b, trim);
      Associates(LinesOfChunk(chunk, trim), StreamLines(rest, trim), StreamLines(b, trim));
    }
  }

  lemma FirstOfMore(a: seq<Unit>, chunk: seq<Unit>, rest: seq<Unit>, b: seq<Unit>)
    requires a != [] && a[|a| - 1] == NEWLINE && chunk == Chunk(a) && a == chunk + rest
    ensures chunk == Chunk(a + b) && rest + b == (a + b)[|chunk|..]
  {
    ChunkOfConcat(a, b);
  }

  lemma ChunkOfConcat(a: seq<Unit>, b: seq<Unit>)
    requires a != [] && a[|a| - 1] == NEWLINE
    ensures Chunk(a + b) == Chunk(a)
  {
    var i := IndexOf(a, NEWLINE);
    assert a[|a| - 1] in a;
    assert (a + b)[..i] == a[..i] && (a + b)[i] == NEWLINE;
    FirstIsUnique(a + b, NEWLINE, i);
    assert (a + b)[..i + 1] == a[..i + 1];
  }

  /** Damage is local: a line that is not UTF-8 is dropped and no other line
      changes, whichever splitter reads it. */
  lemma DamagedLineIsDropped(a: seq<Unit>, bad: seq<Unit>, b: seq<Unit>, trim: Trim)
    requires a == [] || a[|a| - 1] == NEWLINE
    requires Invalid in bad && NEWLINE !in bad
    ensures StreamLines(a + (bad + [NEWLINE]) + b, trim) == StreamLines(a + b, trim)
  {
    var chunk := bad + [NEWLINE];
    assert chunk[..|bad|] == bad;
    FirstIsUnique(chunk, NEWLINE, |bad|);
    assert Chunk(chunk) == chunk;
    assert LinesOfChunk(chunk, trim) == [] && chunk[|chunk|..] == [];
    assert StreamLines(chunk, trim) == [];
    SplitAtLineBoundary(a, chunk, trim);
    SplitAtLineBoundary(a + chunk, b, trim);
    SplitAtLineBoundary(a, b, trim);
    assert StreamLines(a, trim) + [] == StreamLines(a, trim);
  }

  /** A damaged tail without a newline is dropped as well. */
  lemma DamagedTailIsDropped(a: seq<Unit>, bad: seq<Unit>, trim: Trim)
    requires a == [] || a[|a| - 1] == NEWLINE
    requires Invalid in bad && NEWLINE !in bad
    ensures StreamLines(a + bad, trim) == StreamLines(a, trim)
  {
    assert IndexOf(bad, NEWLINE) == |bad|;
    assert Chunk(bad) == bad && bad[|bad|..] == [];
    assert StreamLines(bad, trim) == [];
    SplitAtLineBoundary(a, bad, trim);
    assert StreamLines(a, trim) + [] == StreamLines(a, trim);
  }

  /** A boot log without a final newline loses its last character. */
  lemma UnterminatedBootLog()
    ensures var log := [Char('u'), Char('p')];
      StreamLines(log, PopLast) == ["u"] && Unlines(StreamLines(log, PopLast)) != Decode(log)
  {
    var log := [Char('u'), Char('p')];
    assert IndexOf(log[1..], NEWLINE) == 1 + IndexOf(log[1..][1..], NEWLINE);
    assert Chunk(log) == log && log[|log|..] == [];
    assert PopLast.Apply(Decode(log)) == "u";
    assert StreamLines(log, PopLast) == ["u"] + StreamLines([], PopLast);
    BootLinesRoundTripIff(log);
  }

  /** No emitted line can trip the single-line assertion of `print_line`. */
  lemma {:induction false} StreamedLinesAreSingle(s: seq<Unit>, trim: Trim)
    ensures forall l | l in StreamLines(s, trim) :: '\n' !in l && AtMostOneLine(l)
    decreases |s|
  {
    if s != [] {
      StreamedLinesAreSingle(s[|Chunk(s)|..], trim);
      var line := ReadLine(s);
      if line.Some? {
        var chunk, l := Chunk(s), trim.Apply(line.value);
        forall i | 0 <= i < |l| ensures l[i] != '\n' {
          assert Char(line.value[i]) == chunk[i];
          if i < |chunk| - 1 {
            assert chunk[..|chunk| - 1][i] == chunk[i];
          }
        }
        WithoutNewlineIsOneLine(l);
      }
    }
  }
}
