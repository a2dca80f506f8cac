/** String operations of the Rust standard library that the modelled code relies on:
    whitespace, splitting and joining, `str::lines`, `trim_end` and decimal formatting. */
module Text {

  lemma Associates<T>(a: seq<T>, b: seq<T>, c: seq<T>)
    ensures (a + b) + c == a + (b + c)
  {
  }

  /** `char::is_whitespace`: the Unicode White_Space characters. */
  predicate IsWhitespace(c: char) {
    var n := c as int;
    || 0x9 <= n <= 0xD || n == 0x20 || n == 0x85 || n == 0xA0 || n == 0x1680
    || 0x2000 <= n <= 0x200A || n == 0x2028 || n == 0x2029 || n == 0x202F
    || n == 0x205F || n == 0x3000
  }

  lemma WhitespaceIs(c: char)
    ensures IsWhitespace(c) <==> c as int in {
      0x9, 0xA, 0xB, 0xC, 0xD, 0x20, 0x85, 0xA0, 0x1680, 0x2000, 0x2001, 0x2002, 0x2003, 0x2004, 0x2005, 0x2006,
      0x2007, 0x2008, 0x2009, 0x200A, 0x2028, 0x2029, 0x202F, 0x205F, 0x3000}
  {
  }

  /** In particular the blanks of ASCII are whitespace, and what it prints is not. */
  lemma AsciiWhitespace(c: char)
    requires c as int < 128
    ensures IsWhitespace(c) <==> c == ' ' || c == '\t' || c == '\n' || c == '\r' || c as int == 0xB || c as int == 0xC
  {
  }

  predicate IsSlash(c: char) { c == '/' }

  predicate IsComma(c: char) { c == ',' }

  /** The position of the first `x`, or the length when there is none. */
  function IndexOf<T(==)>(s: seq<T>, x: T): (i: nat)
    ensures i <= |s|
    ensures x !in s[..i]
    ensures i < |s| ==> s[i] == x
    ensures i == |s| ==> x !in s
  {
    if s == [] || s[0] == x then 0
    else
      var i := 1 + IndexOf(s[1..], x);
      assert s[..i] == [s[0]] + s[1..][..i - 1];
      assert s == [s[0]] + s[1..];
      i
  }

  lemma AbsentFromPrefix<T>(s: seq<T>, x: T, n: nat)
    requires n <= |s| && x !in s[..n]
    ensures forall k | 0 <= k < n :: s[k] != x
  {
    forall k | 0 <= k < n ensures s[k] != x {
      assert s[..n][k] == s[k];
    }
  }

  lemma {:induction false} FirstIsUnique<T>(s: seq<T>, x: T, i: nat)
    requires i < |s| && s[i] == x && x !in s[..i]
    ensures IndexOf(s, x) == i
  {
    var j := IndexOf(s, x);
    assert s[i] in s;
    AbsentFromPrefix(s, x, i);
    AbsentFromPrefix(s, x, j);
  }

  // ---------------------------------------------------------------- splitting

  /** Puts one character in front of a split string. */
  function Prepend(c: char, parts: seq<string>, sep: char -> bool): (r: seq<string>)
    requires |parts| >= 1
    ensures |r| >= 1
  {
    if sep(c) then [""] + parts else [[c] + parts[0]] + parts[1..]
  }

  /** `str::split`: the pieces between separators, empty ones included. */
  function SplitBy(s: string, sep: char -> bool): (parts: seq<string>)
    ensures |parts| >= 1
  {
    if s == "" then [""] else Prepend(s[0], SplitBy(s[1..], sep), sep)
  }

  lemma PrependConcat(c: char, a: seq<string>, b: seq<string>, sep: char -> bool)
    requires |a| >= 1
    ensures Prepend(c, a + b, sep) == Prepend(c, a, sep) + b
  {
    assert (a + b)[0] == a[0] && (a + b)[1..] == a[1..] + b;
  }

  /** A separator cuts a string in two independently split halves. */
  lemma {:induction false} SplitAtSeparator(a: string, c: char, b: string, sep: char -> bool)
    requires sep(c)
    ensures SplitBy(a + [c] + b, sep) == SplitBy(a, sep) + SplitBy(b, sep)
  {
    var whole := a + [c] + b;
    if a == "" {
      assert whole[0] == c && whole[1..] == b;
    } else {
      SplitAtSeparator(a[1..], c, b, sep);
      assert whole[0] == a[0] && whole[1..] == a[1..] + [c] + b;
      PrependConcat(a[0], SplitBy(a[1..], sep), SplitBy(b, sep), sep);
    }
  }

  lemma {:induction false} SplitWithoutSeparator(s: string, sep: char -> bool)
    requires forall c | c in s :: !sep(c)
    ensures SplitBy(s, sep) == [s]
  {
    if s != "" {
      assert s[0] in s;
      SplitWithoutSeparator(s[1..], sep);
      assert [s[0]] + s[1..] == s;
    }
  }

  lemma {:induction false} PiecesHaveNoSeparator(s: string, sep: char -> bool)
    ensures forall p, c | p in SplitBy(s, sep) && c in p :: !sep(c)
  {
    if s != "" {
      PiecesHaveNoSeparator(s[1..], sep);
      var rest := SplitBy(s[1..], sep);
      assert rest[0] in rest;
      forall p, c | p in SplitBy(s, sep) && c in p ensures !sep(c) {
        if p in rest {
        } else if !sep(s[0]) {
          assert p == [s[0]] + rest[0];
        }
      }
    }
  }

  /** The number of pieces exceeds the number of separators by one. */
  lemma {:induction false} SeparatorMeansTwoPieces(s: string, sep: char -> bool)
    ensures |SplitBy(s, sep)| >= 2 <==> exists c :: c in s && sep(c)
  {
    if s != "" {
      SeparatorMeansTwoPieces(s[1..], sep);
      assert s == [s[0]] + s[1..];
      if sep(s[0]) {
        assert s[0] in s;
      }
    }
  }

  function NonEmpty(parts: seq<string>): (r: seq<string>)
    ensures forall p | p in r :: p != "" && p in parts
  {
    if parts == [] then []
    else (if parts[0] == "" then [] else [parts[0]]) + NonEmpty(parts[1..])
  }

  lemma {:induction false} NonEmptyConcat(a: seq<string>, b: seq<string>)
    ensures NonEmpty(a + b) == NonEmpty(a) + NonEmpty(b)
  {
    if a == [] {
      assert a + b == b;
    } else {
      NonEmptyConcat(a[1..], b);
      var whole := a + b;
      assert whole[0] == a[0] && whole[1..] == a[1..] + b;
      var first := if a[0] == "" then [] else [a[0]];
      assert first + (NonEmpty(a[1..]) + NonEmpty(b)) == (first + NonEmpty(a[1..])) + NonEmpty(b);
    }
  }

  /** `str::split_whitespace`. */
  function SplitWhitespace(s: string): seq<string> {
    NonEmpty(SplitBy(s, IsWhitespace))
  }

  /** A word: something `split_whitespace` can return. */
  predicate IsWord(w: string) {
    w != "" && forall c | c in w :: !IsWhitespace(c)
  }

  lemma WordsAreWords(s: string)
    ensures forall w | w in SplitWhitespace(s) :: IsWord(w)
  {
    PiecesHaveNoSeparator(s, IsWhitespace);
  }

  /** `join(" ")`. */
  function JoinWithSpaces(words: seq<string>): string {
    if words == [] then ""
    else if |words| == 1 then words[0]
    else words[0] + [' '] + JoinWithSpaces(words[1..])
  }

  /** Joining words with blanks and splitting on whitespace is the identity. */
  lemma {:induction false} JoinThenSplit(words: seq<string>)
    requires forall w | w in words :: IsWord(w)
    ensures SplitWhitespace(JoinWithSpaces(words)) == words
  {
    if words == [] {
      assert NonEmpty([""]) == NonEmpty([""][1..]);
    } else {
      assert words[0] in words;
      SplitWithoutSeparator(words[0], IsWhitespace);
      assert NonEmpty([words[0]]) == [words[0]];
      if |words| == 1 {
        assert words == [words[0]];
      } else {
        JoinThenSplit(words[1..]);
        var rest := JoinWithSpaces(words[1..]);
        SplitAtSeparator(words[0], ' ', rest, IsWhitespace);
        NonEmptyConcat([words[0]], SplitBy(rest, IsWhitespace));
      }
    }
  }

  // -------------------------------------------------------------------- lines

  function StripCarriageReturn(s: string): string {
    if s != "" && s[|s| - 1] == '\r' then s[..|s| - 1] else s
  }

  /** `str::lines`: lines end in "\n" or "\r\n"; the last one may be unterminated. */
  function Lines(s: string): (lines: seq<string>)
    ensures forall l | l in lines :: '\n' !in l
    ensures s != "" ==> lines != []
    decreases |s|
  {
    if s == "" then []
    else
      var i := IndexOf(s, '\n');
      if i < |s| then [StripCarriageReturn(s[..i])] + Lines(s[i + 1..]) else [s]
  }

  /** What `print_line` asserts about its argument. */
  predicate AtMostOneLine(s: string) {
    |Lines(s)| <= 1
  }

  lemma WithoutNewlineIsOneLine(s: string)
    requires '\n' !in s
    ensures AtMostOneLine(s)
  {
    assert s != "" ==> IndexOf(s, '\n') == |s|;
  }

  /** `str::trim_end`. */
  function TrimEnd(s: string): string {
    if s != "" && IsWhitespace(s[|s| - 1]) then TrimEnd(s[..|s| - 1]) else s
  }

  /** What `trim_end` takes off is all the whitespace at the end, and nothing else. */
  lemma {:induction false} TrimEndIs(s: string)
    ensures TrimEnd(s) <= s && forall i | |TrimEnd(s)| <= i < |s| :: IsWhitespace(s[i])
    ensures TrimEnd(s) == "" || !IsWhitespace(TrimEnd(s)[|TrimEnd(s)| - 1])
  {
    if s != "" && IsWhitespace(s[|s| - 1]) { TrimEndIs(s[..|s| - 1]); }
  }

  /** A newline ends a line, */
  lemma LineEnds(a: string, b: string)
    requires '\n' !in a && (a == "" || a[|a| - 1] != '\r')
    ensures Lines(a + "\n" + b) == [a] + Lines(b)
  {
    FirstLineIs(a, b);
  }

  /** and so does a carriage return before a newline; */
  lemma LineEndsInBoth(a: string, b: string)
    requires '\n' !in a
    ensures Lines(a + "\r\n" + b) == [a] + Lines(b)
  {
    var c := a + "\r";
    CarriageReturnStripped(a);
    FirstLineIs(c, b);
    assert a + "\r\n" + b == c + "\n" + b;
  }

  lemma CarriageReturnStripped(a: string)
    requires '\n' !in a
    ensures '\n' !in a + "\r" && StripCarriageReturn(a + "\r") == a
  {
    assert (a + "\r")[..|a|] == a;
  }

  /** what follows the last newline is a line unless it is empty. */
  lemma LastLineIs(a: string)
    requires '\n' !in a
    ensures Lines(a) == if a == "" then [] else [a]
  {
    assert a != "" ==> IndexOf(a, '\n') == |a|;
  }

  lemma FirstLineIs(a: string, b: string)
    requires '\n' !in a
    ensures Lines(a + "\n" + b) == [StripCarriageReturn(a)] + Lines(b)
  {
    var s := a + "\n" + b;
    assert s[..|a|] == a && s[|a|] == '\n' && s[|a| + 1..] == b;
    FirstIsUnique(s, '\n', |a|);
  }

  // ----------------------------------------------------------------- decimals

  function Digit(d: nat): char
    requires d < 10
  {
    '0' + (d as char)
  }

  function Decimal(n: nat): (s: string)
    ensures |s| >= 1
    ensures forall c | c in s :: '0' <= c <= '9'
  {
    if n < 10 then [Digit(n)] else Decimal(n / 10) + [Digit(n % 10)]
  }

  function SignedDecimal(n: int): (s: string)
    ensures |s| >= 1
  {
    if n < 0 then "-" + Decimal(-n) else Decimal(n)
  }

  /** The number that decimal digits stand for. */
  function Value(s: string): int {
    if s == "" then 0 else 10 * Value(s[..|s| - 1]) + (s[|s| - 1] as int - '0' as int)
  }

  lemma {:induction false} DecimalValue(n: nat)
    ensures Value(Decimal(n)) == n
  {
    var s := Decimal(n);
    assert Digit(n % 10) as int == '0' as int + n % 10;
    if n < 10 {
      assert Value(s[..0]) == 0;
    } else {
      DecimalValue(n / 10);
      assert s[..|s| - 1] == Decimal(n / 10);
    }
  }

  /** A signed number is a minus sign, if it is negative, and its digits. */
  lemma SignedDecimalIs(n: int)
    ensures n >= 0 ==> Value(SignedDecimal(n)) == n && SignedDecimal(n)[0] != '-'
    ensures n < 0 ==> SignedDecimal(n)[0] == '-' && Value(SignedDecimal(n)[1..]) == -n
  {
    if n >= 0 {
      DecimalValue(n);
      assert Decimal(n)[0] in Decimal(n);
    } else {
      DecimalValue(-n);
    }
  }

  lemma DigitInjective(a: nat, b: nat)
    requires a < 10 && b < 10 && Digit(a) == Digit(b)
    ensures a == b
  {
    assert Digit(a) as int == '0' as int + a;
    assert Digit(b) as int == '0' as int + b;
  }

  lemma {:induction false} DecimalInjective(a: nat, b: nat)
    requires Decimal(a) == Decimal(b)
    ensures a == b
  {
    var s, t := Decimal(a), Decimal(b);
    assert s[|s| - 1] == Digit(a % 10) && t[|t| - 1] == Digit(b % 10);
    DigitInjective(a % 10, b % 10);
    assert a < 10 <==> |s| == 1;
    assert b < 10 <==> |t| == 1;
    if a >= 10 {
      assert s[..|s| - 1] == Decimal(a / 10) && t[..|t| - 1] == Decimal(b / 10);
      DecimalInjective(a / 10, b / 10);
    }
  }
}
