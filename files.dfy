/** The save file the scripts write, as its sequence of lines, each without
    its terminating newline. A file that does not exist reads as no lines. */
module Files {

  class TextFile {
    var lines: seq<string>

    constructor (lines: seq<string>)
      ensures this.lines == lines
    {
      this.lines := lines;
    }

    /** Removing the file, or opening it with mode 'w': nothing of the
        previous content remains. */
    method Truncate()
      modifies this
      ensures lines == []
    {
      lines := [];
    }

    /** f.write(line + "\n") on a file opened for writing or appending. */
    method WriteLine(line: string)
      modifies this
      ensures lines == old(lines) + [line]
    {
      lines := lines + [line];
    }
  }

  /** A line that neither '\n' nor '\r' breaks when the file is read back. */
  predicate NoLineBreak(s: string)
  {
    '\n' !in s && '\r' !in s
  }

  /** The written lines, each followed by its newline. */
  function Terminated(lines: seq<string>): (out: seq<string>)
    ensures |out| == |lines|
  {
    seq(|lines|, i requires 0 <= i < |lines| => lines[i] + "\n")
  }

  /** The text of a file written line by line. */
  function Content(lines: seq<string>): string
  {
    if |lines| == 0 then "" else lines[0] + "\n" + Content(lines[1..])
  }

  /** Reading in text mode with universal newlines: "\r\n" and a lone "\r"
      both arrive as "\n". */
  function UniversalNewlines(s: string): string
  {
    if |s| == 0 then ""
    else if s[0] == '\r' then
      if |s| > 1 && s[1] == '\n' then "\n" + UniversalNewlines(s[2..])
      else "\n" + UniversalNewlines(s[1..])
    else [s[0]] + UniversalNewlines(s[1..])
  }

  /** The length of the first line of s, its '\n' included; all of s when
      it has no '\n'. */
  function FirstLineLength(s: string): (n: nat)
    ensures n <= |s|
    ensures |s| > 0 ==> n > 0
  {
    if |s| == 0 then 0
    else if s[0] == '\n' then 1
    else 1 + FirstLineLength(s[1..])
  }

  /** Splitting text after every '\n', keeping the newlines; a last line
      without one is kept as it is. */
  function SplitLines(s: string): seq<string>
    decreases |s|
  {
    if |s| == 0 then []
    else
      var n := FirstLineLength(s);
      [s[..n]] + SplitLines(s[n..])
  }

  /** What f.readlines() returns for a file written line by line. */
  function ReadLines(lines: seq<string>): seq<string>
  {
    SplitLines(UniversalNewlines(Content(lines)))
  }

  /** Concatenation of a sequence of strings. */
  function Flatten(pieces: seq<string>): string
  {
    if |pieces| == 0 then "" else pieces[0] + Flatten(pieces[1..])
  }

  /** The first line holds no '\n' before its end, and ends with one unless
      it is all of s. */
  lemma {:induction false} FirstLineLengthSpec(s: string)
    ensures forall j :: 0 <= j < FirstLineLength(s) - 1 ==> s[j] != '\n'
    ensures FirstLineLength(s) < |s| ==> s[FirstLineLength(s) - 1] == '\n'
    ensures FirstLineLength(s) == |s| && |s| > 0 && s[|s| - 1] != '\n' ==> forall j :: 0 <= j < |s| ==> s[j] != '\n'
    decreases |s|
  {
    if |s| > 0 && s[0] != '\n' {
      FirstLineLengthSpec(s[1..]);
      assert forall j :: 1 <= j < |s| ==> s[j] == s[1..][j - 1];
    }
  }

  /** readlines loses nothing and invents nothing: the lines it returns
      concatenate to the text. */
  lemma {:induction false} SplitLinesFlatten(s: string)
    ensures Flatten(SplitLines(s)) == s
    decreases |s|
  {
    if |s| > 0 {
      var n := FirstLineLength(s);
      SplitLinesFlatten(s[n..]);
      var r := SplitLines(s);
      assert r[1..] == SplitLines(s[n..]);
      assert s == s[..n] + s[n..];
    }
  }

  /** Each line readlines returns is non-empty and holds '\n' at its end at
      most; every line but the last ends with '\n'. */
  lemma {:induction false} SplitLinesShape(s: string)
    ensures forall i :: 0 <= i < |SplitLines(s)| ==> |SplitLines(s)[i]| > 0
    ensures forall i, j :: 0 <= i < |SplitLines(s)| && 0 <= j < |SplitLines(s)[i]| - 1 ==> SplitLines(s)[i][j] != '\n'
    ensures forall i :: 0 <= i < |SplitLines(s)| - 1 ==> SplitLines(s)[i][|SplitLines(s)[i]| - 1] == '\n'
    decreases |s|
  {
    if |s| > 0 {
      var n := FirstLineLength(s);
      var rest := SplitLines(s[n..]);
      FirstLineLengthSpec(s);
      SplitLinesShape(s[n..]);
      var r := SplitLines(s);
      assert r[0] == s[..n];
      assert forall i :: 1 <= i < |r| ==> r[i] == rest[i - 1];
      if |rest| > 0 {
        assert n < |s|;
      }
    }
  }

  /** After reading, no '\r' is left. */
  lemma {:induction false} UniversalNewlinesRemovesReturns(s: string)
    ensures '\r' !in UniversalNewlines(s)
    decreases |s|
  {
    if |s| > 0 {
      if s[0] == '\r' && |s| > 1 && s[1] == '\n' {
        UniversalNewlinesRemovesReturns(s[2..]);
      } else {
        UniversalNewlinesRemovesReturns(s[1..]);
      }
    }
  }

  /** Text without '\r' reads back unchanged. */
  lemma {:induction false} UniversalNewlinesWithoutReturn(s: string)
    requires '\r' !in s
    ensures UniversalNewlines(s) == s
    decreases |s|
  {
    if |s| > 0 {
      assert '\r' !in s[1..] by {
        assert forall c :: c in s[1..] ==> c in s;
      }
      UniversalNewlinesWithoutReturn(s[1..]);
      assert s == [s[0]] + s[1..];
    }
  }

  lemma {:induction false} FirstLineOfUnbroken(l: string, rest: string)
    requires '\n' !in l
    ensures FirstLineLength(l + "\n" + rest) == |l| + 1
    decreases |l|
  {
    if |l| > 0 {
      assert (l + "\n" + rest)[1..] == l[1..] + "\n" + rest;
      assert '\n' !in l[1..] by {
        assert forall c :: c in l[1..] ==> c in l;
      }
      FirstLineOfUnbroken(l[1..], rest);
    }
  }

  lemma {:induction false} ContentOfUnbroken(lines: seq<string>)
    requires forall i :: 0 <= i < |lines| ==> NoLineBreak(lines[i])
    ensures '\r' !in Content(lines)
    ensures SplitLines(Content(lines)) == Terminated(lines)
    decreases |lines|
  {
    if |lines| > 0 {
      var l, rest := lines[0], Content(lines[1..]);
      ContentOfUnbroken(lines[1..]);
      FirstLineOfUnbroken(l, rest);
      var s := l + "\n" + rest;
      assert Content(lines) == s;
      assert s[..|l| + 1] == l + "\n";
      assert s[|l| + 1..] == rest;
      assert SplitLines(s) == [l + "\n"] + Terminated(lines[1..]);
      assert Terminated(lines) == [l + "\n"] + Terminated(lines[1..]);
    }
  }

  /** The text ends with a newline, unless it is empty. */
  predicate EndsLine(s: string)
  {
    |s| == 0 || s[|s| - 1] == '\n'
  }

  lemma {:induction false} ContentAppend(a: seq<string>, b: seq<string>)
    ensures Content(a + b) == Content(a) + Content(b)
    ensures EndsLine(Content(a))
    decreases |a|
  {
    if |a| > 0 {
      assert (a + b)[0] == a[0];
      assert (a + b)[1..] == a[1..] + b;
      ContentAppend(a[1..], b);
      assert Content(a + b) == a[0] + "\n" + (Content(a[1..]) + Content(b));
    } else {
      assert a + b == b;
    }
  }

  lemma {:induction false} UniversalNewlinesEndsLine(x: string)
    requires EndsLine(x)
    ensures EndsLine(UniversalNewlines(x))
    decreases |x|
  {
    if |x| > 0 {
      if x[0] == '\r' && x[1] == '\n' {
        UniversalNewlinesEndsLine(x[2..]);
      } else {
        UniversalNewlinesEndsLine(x[1..]);
      }
    }
  }

  /** The first step of reading x + y is the first step of reading x: x
      ends with '\n', so a "\r\n" pair never straddles the two. */
  lemma UniversalNewlinesStep(x: string, y: string, n: nat)
    requires |x| > 0 && x[|x| - 1] == '\n'
    requires n == if x[0] == '\r' && x[1] == '\n' then 2 else 1
    ensures n <= |x|
    ensures (x + y)[n..] == x[n..] + y
    ensures UniversalNewlines(x + y) == UniversalNewlines(x)[..|UniversalNewlines(x)| - |UniversalNewlines(x[n..])|] + UniversalNewlines((x + y)[n..])
    ensures UniversalNewlines(x) == UniversalNewlines(x)[..|UniversalNewlines(x)| - |UniversalNewlines(x[n..])|] + UniversalNewlines(x[n..])
  {
    var xy := x + y;
    assert xy[0] == x[0];
    if x[0] == '\r' {
      assert xy[1] == x[1];
    }
  }

  lemma {:induction false} UniversalNewlinesAppend(x: string, y: string)
    requires EndsLine(x)
    ensures UniversalNewlines(x + y) == UniversalNewlines(x) + UniversalNewlines(y)
    decreases |x|
  {
    if |x| > 0 {
      var n := if x[0] == '\r' && x[1] == '\n' then 2 else 1;
      UniversalNewlinesStep(x, y, n);
      UniversalNewlinesAppend(x[n..], y);
      var head := UniversalNewlines(x)[..|UniversalNewlines(x)| - |UniversalNewlines(x[n..])|];
      assert UniversalNewlines(x + y) == head + (UniversalNewlines(x[n..]) + UniversalNewlines(y));
    } else {
      assert x + y == y;
    }
  }

  lemma {:induction false} FirstLineAppend(x: string, y: string)
    requires |x| > 0 && x[|x| - 1] == '\n'
    ensures FirstLineLength(x + y) == FirstLineLength(x)
    decreases |x|
  {
    if x[0] != '\n' {
      assert (x + y)[1..] == x[1..] + y;
      FirstLineAppend(x[1..], y);
    }
  }

  lemma {:induction false} SplitLinesAppend(x: string, y: string)
    requires EndsLine(x)
    ensures SplitLines(x + y) == SplitLines(x) + SplitLines(y)
    decreases |x|
  {
    if |x| > 0 {
      var n := FirstLineLength(x);
      FirstLineAppend(x, y);
      assert (x + y)[..n] == x[..n];
      assert (x + y)[n..] == x[n..] + y;
      SplitLinesAppend(x[n..], y);
    } else {
      assert x + y == y;
    }
  }

  /** Reading back a file written in two parts reads back each part, in order. */
  lemma ReadLinesAppend(a: seq<string>, b: seq<string>)
    ensures ReadLines(a + b) == ReadLines(a) + ReadLines(b)
  {
    ContentAppend(a, b);
    UniversalNewlinesAppend(Content(a), Content(b));
    UniversalNewlinesEndsLine(Content(a));
    SplitLinesAppend(UniversalNewlines(Content(a)), UniversalNewlines(Content(b)));
  }

  /** When no written line holds a line break, readlines returns exactly
      the written lines, each with its newline. */
  lemma ReadLinesOfUnbroken(lines: seq<string>)
    requires forall i :: 0 <= i < |lines| ==> NoLineBreak(lines[i])
    ensures ReadLines(lines) == Terminated(lines)
  {
    ContentOfUnbroken(lines);
    UniversalNewlinesWithoutReturn(Content(lines));
  }

  /** Reading passes text without '\r' through unchanged, whatever follows it. */
  lemma {:induction false} UniversalNewlinesPrefix(x: string, y: string)
    requires '\r' !in x
    ensures UniversalNewlines(x + y) == x + UniversalNewlines(y)
    decreases |x|
  {
    if |x| > 0 {
      assert (x + y)[0] == x[0];
      assert (x + y)[1..] == x[1..] + y;
      assert '\r' !in x[1..] by {
        assert forall c :: c in x[1..] ==> c in x;
      }
      UniversalNewlinesPrefix(x[1..], y);
      assert x == [x[0]] + x[1..];
    } else {
      assert x + y == y;
    }
  }

  /** A '\n' written inside a line splits it on reading into two lines. */
  lemma ReadLinesSplitsInnerNewline(l1: string, l2: string)
    requires NoLineBreak(l1) && NoLineBreak(l2)
    ensures ReadLines([l1 + "\n" + l2]) == [l1 + "\n", l2 + "\n"]
  {
    var two := [l1, l2];
    assert two[1..] == [l2];
    assert [l2][1..] == [];
    assert Content([l2]) == l2 + "\n";
    assert Content(two) == l1 + "\n" + (l2 + "\n");
    assert Content([l1 + "\n" + l2]) == Content(two);
    ReadLinesOfUnbroken(two);
  }

  /** A '\r' written inside a line, before at least one more character,
      splits it on reading into two lines, the first ending in '\n'. */
  lemma ReadLinesSplitsInnerReturn(l1: string, l2: string)
    requires NoLineBreak(l1) && NoLineBreak(l2) && |l2| > 0
    ensures ReadLines([l1 + "\r" + l2]) == [l1 + "\n", l2 + "\n"]
  {
    var two := [l1, l2];
    assert two[1..] == [l2];
    assert [l2][1..] == [];
    assert Content([l2]) == l2 + "\n";
    assert Content(two) == l1 + ("\n" + (l2 + "\n"));
    var tail := "\r" + l2 + "\n";
    assert Content([l1 + "\r" + l2]) == l1 + tail;
    UniversalNewlinesPrefix(l1, tail);
    assert tail[1] == l2[0];
    assert tail[1..] == l2 + "\n";
    UniversalNewlinesPrefix(l2, "\n");
    assert UniversalNewlines("\n") == "\n";
    assert UniversalNewlines(l1 + tail) == Content(two);
    ContentOfUnbroken(two);
  }

  /** A '\r' that ends a written line merges with the newline written after
      it: the line comes back whole, ending in one '\n'. */
  lemma ReadLinesMergesFinalReturn(l: string)
    requires NoLineBreak(l)
    ensures ReadLines([l + "\r"]) == [l + "\n"]
  {
    var tail := "\r\n";
    assert Content([l + "\r"]) == l + tail;
    UniversalNewlinesPrefix(l, tail);
    assert UniversalNewlines(tail) == "\n";
    assert [l][1..] == [];
    assert UniversalNewlines(l + tail) == Content([l]);
    ContentOfUnbroken([l]);
  }
}
