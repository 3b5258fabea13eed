/** The string helpers the status line relies on: Python's `str.strip()`,
    `str.split(sep)` on a one-character separator, `sep.join(parts)` and
    POSIX `os.path.basename`. */
module Text {

  /** Python's `str.isspace()` for a single character: the characters that
      `str.strip()` with no argument removes. */
  predicate IsSpace(c: char) {
    ('\t' <= c <= '\r') || ('\U{1C}' <= c <= '\U{1F}') || c == ' ' ||
    c == '\U{85}' || c == '\U{A0}' || c == '\U{1680}' ||
    ('\U{2000}' <= c <= '\U{200A}') || c == '\U{2028}' || c == '\U{2029}' ||
    c == '\U{202F}' || c == '\U{205F}' || c == '\U{3000}'
  }

  /** Whether `s` holds a character that is not white space. */
  predicate HasNonBlank(s: string) {
    exists j | 0 <= j < |s| :: !IsSpace(s[j])
  }

  /** How many white-space characters `s` starts with. */
  function LeadingSpaces(s: string): (n: nat)
    ensures n <= |s|
    ensures forall k | 0 <= k < n :: IsSpace(s[k])
    ensures n < |s| ==> !IsSpace(s[n])
  {
    if s != [] && IsSpace(s[0]) then 1 + LeadingSpaces(s[1..]) else 0
  }

  /** How many white-space characters `s` ends with. */
  function TrailingSpaces(s: string): (n: nat)
    ensures n <= |s|
    ensures forall k | |s| - n <= k < |s| :: IsSpace(s[k])
    ensures n < |s| ==> !IsSpace(s[|s| - n - 1])
  {
    if s != [] && IsSpace(s[|s| - 1]) then 1 + TrailingSpaces(s[..|s| - 1]) else 0
  }

  /** Python's `s.strip()`: what is left of `s` after its leading white space
      and its trailing white space are cut off. Neither end of the result is
      white space, and it is empty exactly when `s` is all white space. */
  function Strip(s: string): (r: string)
    ensures var i := LeadingSpaces(s);
      i + |r| <= |s| && r == s[i..i + |r|] && forall k | i + |r| <= k < |s| :: IsSpace(s[k])
    ensures r == [] || (!IsSpace(r[0]) && !IsSpace(r[|r| - 1]))
    ensures r == [] <==> forall k | 0 <= k < |s| :: IsSpace(s[k])
  {
    var i := LeadingSpaces(s);
    if i == |s| then ""
    else
      var j := |s| - TrailingSpaces(s);
      assert i < j;
      s[i..j]
  }

  /** A string that starts and ends with a non-blank keeps exactly itself
      when trailing white space is added and the whole is stripped. */
  lemma StripTrailing(s: string, t: string)
    requires s != [] && !IsSpace(s[0]) && !IsSpace(s[|s| - 1])
    requires forall k | 0 <= k < |t| :: IsSpace(t[k])
    ensures Strip(s + t) == s
  {
    TrailingSpacesAfter(s, t);
  }

  lemma {:induction false} TrailingSpacesAfter(s: string, t: string)
    requires s != [] && !IsSpace(s[|s| - 1])
    requires forall k | 0 <= k < |t| :: IsSpace(t[k])
    ensures TrailingSpaces(s + t) == |t|
  {
    if t != [] {
      var u := t[..|t| - 1];
      assert (s + t)[..|s + t| - 1] == s + u;
      TrailingSpacesAfter(s, u);
    } else {
      assert s + t == s;
    }
  }

  /** How many times `c` occurs in `s`. */
  function Count(s: string, c: char): (n: nat)
    ensures n <= |s|
    ensures n == 0 <==> c !in s
  {
    if s == [] then 0 else (if s[0] == c then 1 else 0) + Count(s[1..], c)
  }

  /** Counting over two halves adds up. */
  lemma {:induction false} CountAppend(a: string, b: string, c: char)
    ensures Count(a + b, c) == Count(a, c) + Count(b, c)
  {
    if a != [] {
      assert (a + b)[1..] == a[1..] + b;
      CountAppend(a[1..], b, c);
    } else {
      assert a + b == b;
    }
  }

  /** Stripping a text that ends in a newline drops exactly one newline when a
      non-blank comes before the first newline (at `j0`) and another comes
      after the second-to-last one (at `j1`). */
  lemma StripDropsFinalNewline(x: string, j0: nat, j1: nat)
    requires j0 < |x| && !IsSpace(x[j0]) && forall k | 0 <= k < j0 :: x[k] != '\n'
    requires j1 < |x| - 1 && !IsSpace(x[j1]) && forall k | j1 < k < |x| - 1 :: x[k] != '\n'
    requires x[|x| - 1] == '\n'
    ensures Count(Strip(x), '\n') + 1 == Count(x, '\n')
  {
    var i := LeadingSpaces(x);
    var r := Strip(x);
    StripKeeps(x, j1);
    StripEndsBeforeBlank(x);
    CountBetween(x, r, i, i + |r|, j0, j1);
  }

  /** Cutting a newline-terminated text anywhere before its first newline
      and anywhere after its second-to-last one keeps all newlines but the last. */
  lemma CountBetween(x: string, r: string, i: nat, e: nat, j0: nat, j1: nat)
    requires i <= j0 < |x| && i <= e && j1 < e <= |x| - 1 && r == x[i..e]
    requires forall k | 0 <= k < j0 :: x[k] != '\n'
    requires forall k | j1 < k < |x| - 1 :: x[k] != '\n'
    requires x[|x| - 1] == '\n'
    ensures Count(r, '\n') + 1 == Count(x, '\n')
  {
    assert '\n' !in x[..i] by {
      forall k | 0 <= k < i
        ensures x[..i][k] != '\n'
      {
      }
    }
    OneNewlineAfter(x, e, j1);
    CountThreeParts(x, i, e, '\n');
  }

  /** Counting over a text split in three adds up. */
  lemma CountThreeParts(x: string, i: nat, e: nat, c: char)
    requires i <= e <= |x|
    ensures Count(x, c) == Count(x[..i], c) + Count(x[i..e], c) + Count(x[e..], c)
  {
    assert x == x[..i] + x[i..e] + x[e..];
    CountAppend(x[..i] + x[i..e], x[e..], c);
    CountAppend(x[..i], x[i..e], c);
  }

  /** What is stripped off the end comes after every non-blank. */
  lemma StripKeeps(x: string, j: nat)
    requires j < |x| && !IsSpace(x[j])
    ensures Strip(x) != [] && j < LeadingSpaces(x) + |Strip(x)|
  {
    var i := LeadingSpaces(x);
    var r := Strip(x);
    assert r != [];
  }

  /** A text ending in a blank loses at least that blank to stripping. */
  lemma StripEndsBeforeBlank(x: string)
    requires x != [] && IsSpace(x[|x| - 1]) && Strip(x) != []
    ensures LeadingSpaces(x) + |Strip(x)| <= |x| - 1
  {
    var i := LeadingSpaces(x);
    var r := Strip(x);
    assert r[|r| - 1] == x[i + |r| - 1];
  }

  lemma OneNewlineAfter(x: string, e: nat, j1: nat)
    requires j1 < e <= |x| - 1 && forall k | j1 < k < |x| - 1 :: x[k] != '\n'
    requires x[|x| - 1] == '\n'
    ensures Count(x[e..], '\n') == 1
  {
    var mid := x[e..|x| - 1];
    assert '\n' !in mid by {
      forall k | 0 <= k < |mid|
        ensures mid[k] != '\n'
      {
        assert mid[k] == x[e + k];
      }
    }
    assert x[e..] == mid + "\n";
    CountAppend(mid, "\n", '\n');
  }

  /** Python's `sep.join(parts)`. */
  function Join(parts: seq<string>, sep: string): (r: string)
    ensures |parts| == 1 ==> r == parts[0]
    ensures |parts| > 0 ==> |parts[0]| <= |r| && r[..|parts[0]|] == parts[0]
  {
    if |parts| == 0 then ""
    else if |parts| == 1 then parts[0]
    else parts[0] + sep + Join(parts[1..], sep)
  }

  /** Python's `s.split(c)`: the pieces between the occurrences of `c`. */
  function Split(s: string, c: char): (r: seq<string>)
    ensures |r| == Count(s, c) + 1
    ensures forall k | 0 <= k < |r| :: c !in r[k]
  {
    if s == [] then [""]
    else
      var rest := Split(s[1..], c);
      if s[0] == c then [""] + rest
      else [[s[0]] + rest[0]] + rest[1..]
  }

  /** A join ends with its last part. */
  lemma {:induction false} JoinEndsWithLast(parts: seq<string>, sep: string)
    requires |parts| > 0
    ensures var r, last := Join(parts, sep), parts[|parts| - 1];
      |last| <= |r| && r[|r| - |last|..] == last
  {
    if |parts| > 1 {
      JoinEndsWithLast(parts[1..], sep);
    }
  }

  /** Joining a part in front of at least one more part puts the separator between. */
  lemma JoinCons(x: string, t: seq<string>, sep: string)
    requires |t| > 0
    ensures Join([x] + t, sep) == x + sep + Join(t, sep)
  {
  }

  /** A character put in front of the first part ends up in front of the join. */
  lemma JoinPrepend(ch: char, t: seq<string>, sep: string)
    requires |t| > 0
    ensures Join([[ch] + t[0]] + t[1..], sep) == [ch] + Join(t, sep)
  {
  }

  /** Splitting at `c` and joining with `c` gives back the original string. */
  lemma {:induction false} JoinSplit(s: string, c: char)
    ensures Join(Split(s, c), [c]) == s
  {
    if s != [] {
      var rest := Split(s[1..], c);
      JoinSplit(s[1..], c);
      if s[0] == c {
        JoinCons("", rest, [c]);
      } else {
        JoinPrepend(s[0], rest, [c]);
      }
      assert [s[0]] + s[1..] == s;
    }
  }

  /** Joining pieces free of `c` with `c` and splitting at `c` gives the pieces back. */
  lemma {:induction false} SplitJoin(parts: seq<string>, c: char)
    requires |parts| > 0
    requires forall k | 0 <= k < |parts| :: c !in parts[k]
    ensures Split(Join(parts, [c]), c) == parts
  {
    if |parts| == 1 {
      SplitNoSeparator(parts[0], c);
    } else {
      SplitJoin(parts[1..], c);
      SplitAfterPiece(parts[0], Join(parts[1..], [c]), c);
      assert [parts[0]] + parts[1..] == parts;
    }
  }

  lemma {:induction false} SplitNoSeparator(s: string, c: char)
    requires c !in s
    ensures Split(s, c) == [s]
  {
    if s != [] {
      SplitNoSeparator(s[1..], c);
      assert [s[0]] + s[1..] == s;
    }
  }

  lemma {:induction false} SplitAfterPiece(p: string, tail: string, c: char)
    requires c !in p
    ensures Split(p + [c] + tail, c) == [p] + Split(tail, c)
  {
    if p == [] {
      assert ([c] + tail)[1..] == tail;
    } else {
      var after := p[1..] + [c] + tail;
      calc {
        Split(p + [c] + tail, c);
        { assert p + [c] + tail == [p[0]] + after; }
        Split([p[0]] + after, c);
        { SplitCons(p[0], after, c); }
        [[p[0]] + Split(after, c)[0]] + Split(after, c)[1..];
        { SplitAfterPiece(p[1..], tail, c); }
        [[p[0]] + p[1..]] + Split(tail, c);
        { assert [p[0]] + p[1..] == p; }
        [p] + Split(tail, c);
      }
    }
  }

  /** A first character other than the separator joins the first piece. */
  lemma SplitCons(ch: char, t: string, c: char)
    requires ch != c
    ensures Split([ch] + t, c) == [[ch] + Split(t, c)[0]] + Split(t, c)[1..]
  {
  }

  /** POSIX `os.path.basename`: the longest suffix of `p` without a `/`.
      It is empty exactly when `p` is empty or ends in `/`. */
  function Basename(p: string): (r: string)
    ensures |r| <= |p| && r == p[|p| - |r|..]
    ensures '/' !in r
    ensures |r| < |p| ==> p[|p| - |r| - 1] == '/'
    ensures r == [] <==> p == [] || p[|p| - 1] == '/'
  {
    if p == [] || p[|p| - 1] == '/' then ""
    else Basename(p[..|p| - 1]) + [p[|p| - 1]]
  }
}
