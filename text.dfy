/** The string operations of Python that the scripts rely on, with Python's
    meaning: str() of a non-negative int, str.split(sep), str.strip() and
    posixpath.basename. Strings are sequences of Unicode code points. */
module Text {

  // ---------------------------------------------------------------------
  // Decimal rendering, as in f"{index + 1}" and f"{count}"
  // ---------------------------------------------------------------------

  function Digit(d: nat): (c: char)
    requires d < 10
    ensures '0' <= c <= '9' && c as int - '0' as int == d
  {
    ('0' as int + d) as char
  }

  predicate AllDigits(s: string)
  {
    forall i :: 0 <= i < |s| ==> '0' <= s[i] <= '9'
  }

  /** Python's str(n) for a non-negative int: decimal digits, no leading zero. */
  function NatToDecimal(n: nat): (s: string)
    ensures |s| >= 1 && AllDigits(s)
    ensures |s| > 1 ==> s[0] != '0'
    decreases n
  {
    if n < 10 then [Digit(n)] else NatToDecimal(n / 10) + [Digit(n % 10)]
  }

  /** The number a string of decimal digits denotes (the reading of NatToDecimal). */
  function DecimalValue(s: string): nat
    requires AllDigits(s)
  {
    if s == [] then 0
    else 10 * DecimalValue(s[..|s| - 1]) + (s[|s| - 1] as int - '0' as int)
  }

  /** Rendering a number and reading it back gives the number. */
  lemma {:induction false} DecimalRoundTrip(n: nat)
    ensures DecimalValue(NatToDecimal(n)) == n
  {
    if n >= 10 {
      DecimalRoundTrip(n / 10);
      var s := NatToDecimal(n);
      assert s[..|s| - 1] == NatToDecimal(n / 10);
    }
  }

  // ---------------------------------------------------------------------
  // Occurrences of a separator, and Python's str.split(sep)
  // ---------------------------------------------------------------------

  /** t occurs in s starting at position p */
  predicate OccursAt(s: string, t: string, p: nat)
  {
    p + |t| <= |s| && s[p..p + |t|] == t
  }

  predicate Contains(s: string, t: string)
  {
    exists p: nat | p <= |s| :: OccursAt(s, t, p)
  }

  /** The scan of CPython's str.split: `start` is where the current piece
      began, `i` the next position tried; a match closes the piece and the
      scan resumes after the separator, so matches never overlap. */
  function SplitFrom(s: string, sep: string, start: nat, i: nat): (pieces: seq<string>)
    requires |sep| > 0 && start <= i <= |s|
    ensures |pieces| >= 1
    decreases |s| - i
  {
    if i + |sep| > |s| then [s[start..]]
    else if OccursAt(s, sep, i) then [s[start..i]] + SplitFrom(s, sep, i + |sep|, i + |sep|)
    else SplitFrom(s, sep, start, i + 1)
  }

  /** Python's s.split(sep) for a non-empty separator. */
  function Split(s: string, sep: string): (pieces: seq<string>)
    requires |sep| > 0
    ensures |pieces| >= 1
  {
    SplitFrom(s, sep, 0, 0)
  }

  /** Python's sep.join(pieces). */
  function Join(pieces: seq<string>, sep: string): string
  {
    if |pieces| == 0 then ""
    else if |pieces| == 1 then pieces[0]
    else pieces[0] + sep + Join(pieces[1..], sep)
  }

  function Last<T>(s: seq<T>): T
    requires |s| > 0
  {
    s[|s| - 1]
  }

  /** The step of JoinSplitFrom at a match: the closed piece, the separator
      and the rest joined back give the text from the piece's start. */
  lemma JoinAfterMatch(s: string, sep: string, start: nat, i: nat)
    requires |sep| > 0 && start <= i && i + |sep| <= |s| && OccursAt(s, sep, i)
    requires Join(SplitFrom(s, sep, i + |sep|, i + |sep|), sep) == s[i + |sep|..]
    ensures Join(SplitFrom(s, sep, start, i), sep) == s[start..]
  {
    var k := i + |sep|;
    var piece, rest := s[start..i], SplitFrom(s, sep, k, k);
    var pieces := [piece] + rest;
    assert SplitFrom(s, sep, start, i) == pieces;
    assert pieces[1..] == rest;
    assert Join(pieces, sep) == piece + sep + s[k..];
    assert s[i..] == s[i..k] + s[k..];
    assert s[start..] == piece + s[i..];
  }

  lemma {:induction false} JoinSplitFrom(s: string, sep: string, start: nat, i: nat)
    requires |sep| > 0 && start <= i <= |s|
    ensures Join(SplitFrom(s, sep, start, i), sep) == s[start..]
    decreases |s| - i
  {
    if i + |sep| > |s| {
      assert SplitFrom(s, sep, start, i) == [s[start..]];
    } else if OccursAt(s, sep, i) {
      JoinSplitFrom(s, sep, i + |sep|, i + |sep|);
      JoinAfterMatch(s, sep, start, i);
    } else {
      assert SplitFrom(s, sep, start, i) == SplitFrom(s, sep, start, i + 1);
      JoinSplitFrom(s, sep, start, i + 1);
    }
  }

  /** Joining the pieces of a split with the same separator gives back the string. */
  lemma JoinSplit(s: string, sep: string)
    requires |sep| > 0
    ensures Join(Split(s, sep), sep) == s
  {
    JoinSplitFrom(s, sep, 0, 0);
  }

  lemma OccursInSlice(s: string, t: string, a: nat, b: nat, q: nat)
    requires a <= b <= |s| && OccursAt(s[a..b], t, q)
    ensures OccursAt(s, t, a + q) && a + q + |t| <= b
  {
    var u := s[a..b];
    assert u[q..q + |t|] == t;
    assert forall k :: 0 <= k < |t| ==> t[k] == u[q + k] == s[a + q + k];
    assert s[a + q..a + q + |t|] == t;
  }

  lemma {:induction false} SplitFromPiecesAvoid(s: string, sep: string, start: nat, i: nat)
    requires |sep| > 0 && start <= i <= |s|
    requires forall p :: start <= p < i ==> !OccursAt(s, sep, p)
    ensures forall k :: 0 <= k < |SplitFrom(s, sep, start, i)| ==> !Contains(SplitFrom(s, sep, start, i)[k], sep)
    decreases |s| - i
  {
    var pieces := SplitFrom(s, sep, start, i);
    if i + |sep| > |s| {
      if Contains(s[start..], sep) {
        var q: nat :| OccursAt(s[start..], sep, q);
        assert s[start..] == s[start..|s|];
        OccursInSlice(s, sep, start, |s|, q);
      }
    } else if OccursAt(s, sep, i) {
      SplitFromPiecesAvoid(s, sep, i + |sep|, i + |sep|);
      if Contains(s[start..i], sep) {
        var q: nat :| OccursAt(s[start..i], sep, q);
        OccursInSlice(s, sep, start, i, q);
      }
      assert pieces == [s[start..i]] + SplitFrom(s, sep, i + |sep|, i + |sep|);
    } else {
      SplitFromPiecesAvoid(s, sep, start, i + 1);
    }
  }

  /** No piece of a split contains the separator. */
  lemma SplitPiecesAvoidSeparator(s: string, sep: string)
    requires |sep| > 0
    ensures forall k :: 0 <= k < |Split(s, sep)| ==> !Contains(Split(s, sep)[k], sep)
  {
    SplitFromPiecesAvoid(s, sep, 0, 0);
  }

  /** Once no separator starts at or after i, the scan ends with the current piece. */
  lemma {:induction false} SplitFromNoMoreMatches(s: string, sep: string, start: nat, i: nat)
    requires |sep| > 0 && start <= i <= |s|
    requires forall p :: i <= p ==> !OccursAt(s, sep, p)
    ensures SplitFrom(s, sep, start, i) == [s[start..]]
    decreases |s| - i
  {
    if i + |sep| <= |s| {
      SplitFromNoMoreMatches(s, sep, start, i + 1);
    }
  }

  /** A string without the separator splits into itself alone. */
  lemma SplitWithoutSeparator(s: string, sep: string)
    requires |sep| > 0 && !Contains(s, sep)
    ensures Split(s, sep) == [s]
  {
    SplitFromNoMoreMatches(s, sep, 0, 0);
  }

  /** The scan reaches a match at j as long as no earlier match straddles j;
      it then resumes just after that match. */
  lemma {:induction false} SplitFromReaches(s: string, sep: string, start: nat, i: nat, j: nat)
    requires |sep| > 0 && start <= i <= j && OccursAt(s, sep, j)
    requires forall p :: i <= p < j && OccursAt(s, sep, p) ==> p + |sep| <= j
    ensures Last(SplitFrom(s, sep, start, i)) == Last(SplitFrom(s, sep, j + |sep|, j + |sep|))
    decreases j - i
  {
    assert i + |sep| <= |s|;
    if OccursAt(s, sep, i) {
      var rest := SplitFrom(s, sep, i + |sep|, i + |sep|);
      assert SplitFrom(s, sep, start, i) == [s[start..i]] + rest;
      assert Last([s[start..i]] + rest) == Last(rest);
      if i < j {
        SplitFromReaches(s, sep, i + |sep|, i + |sep|, j);
      }
    } else {
      assert SplitFrom(s, sep, start, i) == SplitFrom(s, sep, start, i + 1);
      SplitFromReaches(s, sep, start, i + 1, j);
    }
  }

  /** No occurrence straddles the start of a written separator whose first
      character does not recur inside it. */
  lemma NoStraddlingOccurrence(x: string, sep: string, a: string, p: nat)
    requires |sep| > 0
    requires forall k :: 0 < k < |sep| ==> sep[k] != sep[0]
    requires p < |x| < p + |sep|
    ensures !OccursAt(x + sep + a, sep, p)
  {
    var s := x + sep + a;
    var j := |x|;
    if p + |sep| <= |s| {
      assert s[j] == sep[0];
      assert s[p..p + |sep|][j - p] == s[j] != sep[j - p];
    }
  }

  /** An occurrence inside a suffix is an occurrence in that suffix. */
  lemma OccursInSuffix(s: string, k: nat, sep: string, p: nat)
    requires k <= p && OccursAt(s, sep, p)
    ensures OccursAt(s[k..], sep, p - k)
  {
    assert s[p..p + |sep|] == s[k..][p - k..p - k + |sep|];
  }

  /** No occurrence starts inside the text after a written separator, when
      that text holds none. */
  lemma NoOccurrenceAfter(x: string, sep: string, a: string, p: nat)
    requires !Contains(a, sep)
    requires |x| + |sep| <= p
    ensures !OccursAt(x + sep + a, sep, p)
  {
    var s := x + sep + a;
    assert s[|x| + |sep|..] == a;
    if OccursAt(s, sep, p) {
      OccursInSuffix(s, |x| + |sep|, sep, p);
      assert false;
    }
  }

  /** When the separator's first character does not recur inside it and the
      text after one written separator holds none, the last piece of the
      split is that text, whatever comes before. */
  lemma LastPieceAfterSeparator(x: string, sep: string, a: string)
    requires |sep| > 0
    requires forall k :: 0 < k < |sep| ==> sep[k] != sep[0]
    requires !Contains(a, sep)
    ensures Last(Split(x + sep + a, sep)) == a
  {
    var s := x + sep + a;
    var j := |x|;
    assert OccursAt(s, sep, j) by { assert s[j..j + |sep|] == sep; }
    forall p | 0 <= p < j && j < p + |sep|
      ensures !OccursAt(s, sep, p)
    {
      NoStraddlingOccurrence(x, sep, a, p);
    }
    SplitFromReaches(s, sep, 0, 0, j);
    var k := j + |sep|;
    forall p | k <= p
      ensures !OccursAt(s, sep, p)
    {
      NoOccurrenceAfter(x, sep, a, p);
    }
    SplitFromNoMoreMatches(s, sep, k, k);
    assert s[k..] == a;
  }

  lemma OccursBeforeAppended(a: string, c: char, sep: string, p: nat)
    requires |sep| > 0 && sep[|sep| - 1] != c && OccursAt(a + [c], sep, p)
    ensures OccursAt(a, sep, p)
  {
    var s := a + [c];
    assert s[p..p + |sep|][|sep| - 1] == s[p + |sep| - 1];
    assert s[p..p + |sep|] == a[p..p + |sep|];
  }

  /** Appending a character the separator does not end with creates no occurrence. */
  lemma AppendKeepsAbsent(a: string, c: char, sep: string)
    requires |sep| > 0 && sep[|sep| - 1] != c && !Contains(a, sep)
    ensures !Contains(a + [c], sep)
  {
    if Contains(a + [c], sep) {
      var p: nat :| p <= |a| + 1 && OccursAt(a + [c], sep, p);
      OccursBeforeAppended(a, c, sep, p);
      assert false;
    }
  }

  // ---------------------------------------------------------------------
  // Python's str.strip() with no argument
  // ---------------------------------------------------------------------

  /** Python's str.isspace() on one code point. */
  predicate IsSpace(c: char)
  {
    var u := c as int;
    (9 <= u <= 13) || (28 <= u <= 32) || u == 0x85 || u == 0xA0 || u == 0x1680
    || (0x2000 <= u <= 0x200A) || u == 0x2028 || u == 0x2029 || u == 0x202F
    || u == 0x205F || u == 0x3000
  }

  predicate AllSpace(s: string)
  {
    forall i :: 0 <= i < |s| ==> IsSpace(s[i])
  }

  /** Neither the first nor the last character is white space. */
  predicate Unpadded(s: string)
  {
    |s| == 0 || (!IsSpace(s[0]) && !IsSpace(s[|s| - 1]))
  }

  /** s.lstrip(): drops the white space at the start. */
  function TrimStart(s: string): string
  {
    if |s| > 0 && IsSpace(s[0]) then TrimStart(s[1..]) else s
  }

  /** lstrip removes a prefix of white space, and all of it: what remains
      is a suffix that does not start with white space. */
  lemma {:induction false} TrimStartSpec(s: string)
    ensures |TrimStart(s)| <= |s| && TrimStart(s) == s[|s| - |TrimStart(s)|..]
    ensures AllSpace(s[..|s| - |TrimStart(s)|])
    ensures |TrimStart(s)| > 0 ==> !IsSpace(TrimStart(s)[0])
    decreases |s|
  {
    if |s| > 0 && IsSpace(s[0]) {
      var t := s[1..];
      TrimStartSpec(t);
      var r := TrimStart(t);
      assert TrimStart(s) == r;
      assert t[|t| - |r|..] == s[|s| - |r|..];
      var cut := s[..|s| - |r|];
      forall k | 0 <= k < |cut|
        ensures IsSpace(cut[k])
      {
        if k > 0 {
          assert cut[k] == t[..|t| - |r|][k - 1];
        }
      }
    } else {
      assert TrimStart(s) == s;
    }
  }

  /** s.rstrip(): drops the white space at the end. */
  function TrimEnd(s: string): string
  {
    if |s| > 0 && IsSpace(s[|s| - 1]) then TrimEnd(s[..|s| - 1]) else s
  }

  /** rstrip removes a suffix of white space, and all of it: what remains
      is a prefix that does not end with white space. */
  lemma {:induction false} TrimEndSpec(s: string)
    ensures |TrimEnd(s)| <= |s| && TrimEnd(s) == s[..|TrimEnd(s)|]
    ensures AllSpace(s[|TrimEnd(s)|..])
    ensures |TrimEnd(s)| > 0 ==> !IsSpace(TrimEnd(s)[|TrimEnd(s)| - 1])
    decreases |s|
  {
    if |s| > 0 && IsSpace(s[|s| - 1]) {
      var t := s[..|s| - 1];
      TrimEndSpec(t);
      var r := TrimEnd(t);
      assert TrimEnd(s) == r;
      assert t[..|r|] == s[..|r|];
      var cut := s[|r|..];
      forall k | 0 <= k < |cut|
        ensures IsSpace(cut[k])
      {
        if k < |cut| - 1 {
          assert cut[k] == t[|r|..][k];
        }
      }
    } else {
      assert TrimEnd(s) == s;
    }
  }

  /** Python's s.strip(): drops the white space at both ends. */
  function Strip(s: string): (r: string)
    ensures Unpadded(r)
  {
    var t := TrimStart(s);
    TrimStartSpec(s);
    var r := TrimEnd(t);
    TrimEndSpec(t);
    assert |r| > 0 ==> r[0] == t[0];
    r
  }

  lemma {:induction false} TrimStartPadded(pre: string, a: string)
    requires AllSpace(pre) && (|a| == 0 || !IsSpace(a[0]))
    ensures TrimStart(pre + a) == a
    decreases |pre|
  {
    if |pre| > 0 {
      assert (pre + a)[1..] == pre[1..] + a;
      TrimStartPadded(pre[1..], a);
    } else {
      assert pre + a == a;
    }
  }

  lemma {:induction false} TrimEndPadded(a: string, post: string)
    requires AllSpace(post) && (|a| == 0 || !IsSpace(a[|a| - 1]))
    ensures TrimEnd(a + post) == a
    decreases |post|
  {
    if |post| > 0 {
      assert (a + post)[..|a + post| - 1] == a + post[..|post| - 1];
      TrimEndPadded(a, post[..|post| - 1]);
    } else {
      assert a + post == a;
    }
  }

  /** strip() removes exactly the white space around an unpadded text. */
  lemma StripPadded(pre: string, a: string, post: string)
    requires AllSpace(pre) && AllSpace(post) && Unpadded(a)
    ensures Strip(pre + a + post) == a
  {
    if |a| == 0 {
      assert pre + a + post == pre + post;
      if |post| > 0 {
        TrimStartPadded(pre + post, "");
        assert pre + post + "" == pre + post;
      } else {
        TrimStartPadded(pre, "");
        assert pre + "" == pre;
      }
    } else {
      assert pre + a + post == pre + (a + post);
      TrimStartPadded(pre, a + post);
      TrimEndPadded(a, post);
    }
  }

  // ---------------------------------------------------------------------
  // posixpath.basename
  // ---------------------------------------------------------------------

  /** os.path.basename on POSIX: the part of the path after its last '/'. */
  function Basename(path: string): (name: string)
    ensures '/' !in name
    ensures |name| <= |path| && name == path[|path| - |name|..]
    ensures |name| < |path| ==> path[|path| - |name| - 1] == '/'
  {
    if |path| == 0 || path[|path| - 1] == '/' then []
    else Basename(path[..|path| - 1]) + [path[|path| - 1]]
  }
}
