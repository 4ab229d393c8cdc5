/** The Python string built-ins the backup script relies on: str.splitlines, str.split,
    str.rstrip, int() on decimal digits, zero-padded formatting and os.path.join (POSIX). */
module Strings {
  import opened Common

  /** str.isspace(): the characters str.split() with no argument separates on. */
  predicate IsSpace(c: char)
  {
    || c == ' ' || '\t' <= c <= '\r' || '\U{1c}' <= c <= '\U{1f}'
    || c == '\U{85}' || c == '\U{a0}' || c == '\U{1680}' || '\U{2000}' <= c <= '\U{200a}'
    || c == '\U{2028}' || c == '\U{2029}' || c == '\U{202f}' || c == '\U{205f}' || c == '\U{3000}'
  }

  /** The line boundaries of str.splitlines() ("\r\n" is one boundary, see SplitLines). */
  predicate IsLineBreak(c: char)
  {
    '\n' <= c <= '\r' || '\U{1c}' <= c <= '\U{1e}' || c == '\U{85}' || c == '\U{2028}' || c == '\U{2029}'
  }

  /** Index of the first line boundary in s, or |s| if there is none. */
  function LineEnd(s: string): (i: nat)
    ensures i <= |s|
    ensures forall k :: 0 <= k < i ==> !IsLineBreak(s[k])
    ensures i < |s| ==> IsLineBreak(s[i])
  {
    if s == [] || IsLineBreak(s[0]) then 0 else 1 + LineEnd(s[1..])
  }

  /** str.splitlines(): the lines of s without their boundaries; a final boundary
      does not open an empty last line, and "" has no lines. */
  function SplitLines(s: string): (lines: seq<string>)
    ensures forall i, k :: 0 <= i < |lines| && 0 <= k < |lines[i]| ==> !IsLineBreak(lines[i][k])
    ensures s == [] <==> lines == []
    decreases |s|
  {
    if s == [] then []
    else
      var i := LineEnd(s);
      if i == |s| then [s]
      else
        var next := if s[i] == '\r' && i + 1 < |s| && s[i + 1] == '\n' then i + 2 else i + 1;
        [s[..i]] + SplitLines(s[next..])
  }

  /** A line followed by "\n" is split off as the first line. */
  lemma SplitLinesNewline(a: string, b: string)
    requires forall k :: 0 <= k < |a| ==> !IsLineBreak(a[k])
    ensures SplitLines(a + "\n" + b) == [a] + SplitLines(b)
  {
    var s := a + "\n" + b;
    assert s[|a|] == '\n';
    assert LineEnd(s) == |a|;
    assert s[..|a|] == a;
    assert s[|a| + 1..] == b;
  }

  /** Length of s once trailing whitespace is dropped. */
  function TrailingEnd(s: string): (e: nat)
    ensures e <= |s|
  {
    if s == [] || !IsSpace(s[|s| - 1]) then |s| else TrailingEnd(s[..|s| - 1])
  }

  /** TrailingEnd drops whitespace only, and all of it. */
  lemma {:induction false} TrailingEndDropsSpace(s: string)
    ensures forall k :: TrailingEnd(s) <= k < |s| ==> IsSpace(s[k])
    ensures TrailingEnd(s) == 0 || !IsSpace(s[TrailingEnd(s) - 1])
    decreases |s|
  {
    if s != [] && IsSpace(s[|s| - 1]) {
      TrailingEndDropsSpace(s[..|s| - 1]);
    }
  }

  /** Start of the run of non-whitespace characters that ends s. */
  function WordStart(s: string): (b: nat)
    ensures b <= |s|
  {
    if s == [] || IsSpace(s[|s| - 1]) then |s| else WordStart(s[..|s| - 1])
  }

  /** WordStart goes back over non-whitespace only, up to whitespace or the start. */
  lemma {:induction false} WordStartStopsAtSpace(s: string)
    ensures forall k :: WordStart(s) <= k < |s| ==> !IsSpace(s[k])
    ensures WordStart(s) == 0 || IsSpace(s[WordStart(s) - 1])
    decreases |s|
  {
    if s != [] && !IsSpace(s[|s| - 1]) {
      WordStartStopsAtSpace(s[..|s| - 1]);
    }
  }

  /** `line.split()[-1]`: the last whitespace-separated token of line, or None where
      split() gives an empty list (Python then raises IndexError). */
  function LastToken(line: string): Option<string>
  {
    var e := TrailingEnd(line);
    if e == 0 then None else Some(line[WordStart(line[..e])..e])
  }

  /** LastToken is None exactly for a line of whitespace only; otherwise it is a non-empty
      run of non-whitespace that starts the line or follows whitespace, and only whitespace
      follows it. */
  lemma LastTokenIsLastWord(line: string)
    ensures LastToken(line).None? <==> forall k :: 0 <= k < |line| ==> IsSpace(line[k])
    ensures LastToken(line).Some? ==>
      var t := LastToken(line).value;
      && t != [] && (forall k :: 0 <= k < |t| ==> !IsSpace(t[k]))
      && exists b, e :: 0 <= b < e <= |line| && line[b..e] == t
           && (b == 0 || IsSpace(line[b - 1])) && forall k :: e <= k < |line| ==> IsSpace(line[k])
  {
    var e := TrailingEnd(line);
    TrailingEndDropsSpace(line);
    if e != 0 {
      var b := WordStart(line[..e]);
      WordStartStopsAtSpace(line[..e]);
      assert line[..e][b..] == line[b..e];
    }
  }

  /** str.rstrip(c): s without its trailing run of c. */
  function RStrip(s: string, c: char): (r: string)
    ensures |r| <= |s| && r == s[..|r|]
    ensures r == [] || r[|r| - 1] != c
  {
    if s != [] && s[|s| - 1] == c then RStrip(s[..|s| - 1], c) else s
  }

  /** What rstrip removes is c's only. */
  lemma {:induction false} RStripRemovesOnly(s: string, c: char)
    ensures forall k :: |RStrip(s, c)| <= k < |s| ==> s[k] == c
    decreases |s|
  {
    if s != [] && s[|s| - 1] == c {
      RStripRemovesOnly(s[..|s| - 1], c);
    }
  }

  /** Index of the first c in s, or |s| if there is none. */
  function IndexOf(s: string, c: char): (i: nat)
    ensures i <= |s|
    ensures forall k :: 0 <= k < i ==> s[k] != c
    ensures i < |s| ==> s[i] == c
  {
    if s == [] || s[0] == c then 0 else 1 + IndexOf(s[1..], c)
  }

  /** str.split(sep) for a one-character separator: never an empty list, and the first part
      is everything before the first sep. */
  function Split(s: string, sep: char): (parts: seq<string>)
    ensures |parts| >= 1
    ensures parts[0] == s[..IndexOf(s, sep)]
    decreases |s|
  {
    var i := IndexOf(s, sep);
    if i == |s| then [s] else [s[..i]] + Split(s[i + 1..], sep)
  }

  /** No part of a split holds the separator, and joining the parts with it gives s back. */
  lemma {:induction false} SplitJoin(s: string, sep: char)
    ensures forall i, k :: 0 <= i < |Split(s, sep)| && 0 <= k < |Split(s, sep)[i]| ==> Split(s, sep)[i][k] != sep
    ensures JoinWith(Split(s, sep), sep) == s
    decreases |s|
  {
    var i := IndexOf(s, sep);
    if i < |s| {
      SplitJoin(s[i + 1..], sep);
      var parts := Split(s, sep);
      var rest := Split(s[i + 1..], sep);
      assert parts == [s[..i]] + rest;
      forall j, k | 0 <= j < |parts| && 0 <= k < |parts[j]|
        ensures parts[j][k] != sep
      {
        if j > 0 {
          assert parts[j] == rest[j - 1];
        }
      }
      assert s == s[..i] + [sep] + s[i + 1..];
    }
  }

  /** `sep.join(parts)` */
  function JoinWith(parts: seq<string>, sep: char): string
    requires |parts| >= 1
  {
    if |parts| == 1 then parts[0] else parts[0] + [sep] + JoinWith(parts[1..], sep)
  }

  predicate StartsWith(s: string, prefix: string)
  {
    |prefix| <= |s| && s[..|prefix|] == prefix
  }

  predicate IsDigit(c: char)
  {
    '0' <= c <= '9'
  }

  predicate IsDigits(s: string)
  {
    forall k :: 0 <= k < |s| ==> IsDigit(s[k])
  }

  /** The value of a string of decimal digits. */
  function Num(s: string): nat
    requires IsDigits(s)
  {
    if s == [] then 0 else 10 * Num(s[..|s| - 1]) + (s[|s| - 1] as int - '0' as int)
  }

  function Pow10(n: nat): (p: nat)
    ensures p >= 1
  {
    if n == 0 then 1 else 10 * Pow10(n - 1)
  }

  /** The last `width` decimal digits of n, zero-padded (strftime's %Y, %m, %d, %H, %M, %S). */
  function Pad(n: nat, width: nat): (s: string)
    ensures |s| == width && IsDigits(s)
  {
    if width == 0 then [] else Pad(n / 10, width - 1) + [('0' as int + n % 10) as char]
  }

  /** Padding a number that fits in `width` digits loses nothing. */
  lemma {:induction false} NumPad(n: nat, width: nat)
    requires n < Pow10(width)
    ensures Num(Pad(n, width)) == n
  {
    if width > 0 {
      var s := Pad(n, width);
      var m, d := n / 10, n % 10;
      assert n == 10 * m + d;
      assert m < Pow10(width - 1);
      NumPad(m, width - 1);
      assert s[..|s| - 1] == Pad(m, width - 1);
      assert s[|s| - 1] as int - '0' as int == d;
    }
  }

  lemma MulTen(x: nat, y: nat)
    ensures 10 * (x * y) == x * (10 * y)
  {
  }

  /** The value of a concatenation of digit strings is positional. */
  lemma {:induction false} NumAppend(a: string, b: string)
    requires IsDigits(a) && IsDigits(b)
    ensures IsDigits(a + b) && Num(a + b) == Num(a) * Pow10(|b|) + Num(b)
  {
    if b != [] {
      var b' := b[..|b| - 1];
      var d := b[|b| - 1] as int - '0' as int;
      assert (a + b)[..|a + b| - 1] == a + b';
      assert (a + b)[|a + b| - 1] == b[|b| - 1];
      NumAppend(a, b');
      assert Num(a + b) == 10 * Num(a + b') + d;
      assert Num(b) == 10 * Num(b') + d;
      assert Pow10(|b|) == 10 * Pow10(|b'|);
      var na, nb', p' := Num(a), Num(b'), Pow10(|b'|);
      MulTen(na, p');
      assert Num(a + b) == na * (10 * p') + (10 * nb' + d);
    } else {
      assert a + b == a;
    }
  }

  /** int(s) for the strings it is applied to here: decimal digits, else ValueError. */
  function Int(s: string): (r: Result<nat, Error>)
    ensures r.Success? <==> s != [] && IsDigits(s)
    ensures r.Failure? ==> r.error == ValueError
  {
    if s != [] && IsDigits(s) then Success(Num(s)) else Failure(ValueError)
  }

  /** os.path.join(a, b) on POSIX: an absolute b replaces a; otherwise one '/' separates them. */
  function Join(a: string, b: string): string
  {
    JoinPrefix(a, b) + b
  }

  /** What os.path.join(a, b) puts before b: nothing for an absolute b, else a and, unless a
      is empty or ends with one, a '/'. */
  function JoinPrefix(a: string, b: string): string
  {
    if b != [] && b[0] == '/' then []
    else if a == [] || a[|a| - 1] == '/' then a
    else a + "/"
  }

  /** A joined path ends with its last component; a relative component is appended to a
      non-empty a after a '/'. */
  lemma JoinEndsWith(a: string, b: string)
    ensures var r := Join(a, b);
      && |b| <= |r| && r[|r| - |b|..] == b
      && (b != [] && b[0] != '/' && a != [] ==> |r| > |b| && r[|r| - |b| - 1] == '/' && StartsWith(r, a))
  {
  }
}
