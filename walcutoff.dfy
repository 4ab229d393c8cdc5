/** extract_last_segment_from_backup_label: the WAL segment named on the `START WAL LOCATION`
    line of a backup_label file, found with LAST_SEGMENT_RE. */
module WalCutoff {
  import opened Common
  import opened Strings

  const StartPrefix: string := "START WAL LOCATION:"
  const FileOpen: string := "(file "

  /** Where `.*` must stop: it matches any character but '\n'. */
  function DotLimit(line: string): (m: nat)
    requires StartsWith(line, StartPrefix)
    ensures |StartPrefix| <= m <= |line|
    ensures forall k :: |StartPrefix| <= k < m ==> line[k] != '\n'
  {
    |StartPrefix| + IndexOf(line[|StartPrefix|..], '\n')
  }

  /** The rest of the pattern, `\(file ([^)]+)\)`, tried at position p: "(file " there, then
      a non-empty run of characters other than ')', closed by ')'. The run is the capture. */
  function GroupAt(line: string, p: nat): Option<string>
  {
    if p + |FileOpen| <= |line| && line[p..p + |FileOpen|] == FileOpen then
      var start := p + |FileOpen|;
      var q := start + IndexOf(line[start..], ')');
      if start < q < |line| then Some(line[start..q]) else None
    else None
  }

  /** A group found at p is a non-empty run without ')' that follows "(file " at p and is
      closed by ')'. */
  lemma GroupAtShape(line: string, p: nat)
    ensures var g := GroupAt(line, p);
      g.Some? ==>
      && p + |FileOpen| + |g.value| < |line|
      && line[p..p + |FileOpen|] == FileOpen
      && line[p + |FileOpen|..p + |FileOpen| + |g.value|] == g.value
      && line[p + |FileOpen| + |g.value|] == ')'
      && g.value != [] && forall k :: 0 <= k < |g.value| ==> g.value[k] != ')'
  {
    if GroupAt(line, p).Some? {
      var start := p + |FileOpen|;
      var q := start + IndexOf(line[start..], ')');
      assert forall k :: 0 <= k < q - start ==> line[start..q][k] == line[start..][k];
    }
  }

  /** Any "(file " with a non-empty ')'-free run closed by ')' makes the group match there. */
  lemma GroupAtFinds(line: string, p: nat, seg: string)
    requires p + |FileOpen| + |seg| < |line| && line[p..p + |FileOpen|] == FileOpen
    requires line[p + |FileOpen|..p + |FileOpen| + |seg|] == seg && line[p + |FileOpen| + |seg|] == ')'
    requires seg != [] && forall k :: 0 <= k < |seg| ==> seg[k] != ')'
    ensures GroupAt(line, p) == Some(seg)
  {
    var start := p + |FileOpen|;
    assert forall k :: 0 <= k < |seg| ==> line[start..][k] == seg[k];
    assert line[start..][|seg|] == ')';
    assert IndexOf(line[start..], ')') == |seg|;
  }

  /** Backtracking of a greedy `.*`: the end positions from p down to lo are tried in turn,
      and the first one where `rest` (the remainder of the pattern) matches wins. */
  function Backtrack(rest: nat -> Option<string>, lo: nat, p: nat): Option<string>
    requires lo <= p
    decreases p
  {
    if rest(p).Some? || p == lo then rest(p) else Backtrack(rest, lo, p - 1)
  }

  /** Backtracking finds a match exactly when some end position from lo to p admits one, and
      then it finds the one at the greatest such position. */
  lemma {:induction false} BacktrackFindsLast(rest: nat -> Option<string>, lo: nat, p: nat)
    requires lo <= p
    ensures Backtrack(rest, lo, p).Some? <==> exists p' :: lo <= p' <= p && rest(p').Some?
    ensures Backtrack(rest, lo, p).Some? ==>
      exists p' :: (lo <= p' <= p && Backtrack(rest, lo, p) == rest(p')
        && forall p'' :: p' < p'' <= p ==> rest(p'').None?)
    decreases p
  {
    if rest(p).None? && p > lo {
      BacktrackFindsLast(rest, lo, p - 1);
    }
  }

  /** The rest of the pattern tried at each position of line. */
  function GroupsOf(line: string): nat -> Option<string>
  {
    (p: nat) => GroupAt(line, p)
  }

  /** LAST_SEGMENT_RE.match(line) followed by group(1): the line must start with the prefix,
      and the greedy `.*` makes the capture the one after the LAST "(file " at which the
      rest of the pattern matches. */
  function SegmentMatch(line: string): (g: Option<string>)
  {
    if StartsWith(line, StartPrefix) then Backtrack(GroupsOf(line), |StartPrefix|, DotLimit(line)) else None
  }

  /** The match succeeds exactly on a line that starts with the prefix and has, within the
      reach of `.*`, an "(file " that the rest of the pattern accepts; and then its capture is
      non-empty, holds no ')', and is the one at the last such place. */
  lemma SegmentMatchIsLastGroup(line: string)
    ensures SegmentMatch(line).Some? <==>
      StartsWith(line, StartPrefix) && exists p :: |StartPrefix| <= p <= DotLimit(line) && GroupAt(line, p).Some?
    ensures SegmentMatch(line).Some? ==>
      exists p :: (|StartPrefix| <= p <= DotLimit(line) && SegmentMatch(line) == GroupAt(line, p)
        && forall p' :: p < p' <= DotLimit(line) ==> GroupAt(line, p').None?)
    ensures SegmentMatch(line).Some? ==>
      SegmentMatch(line).value != [] && forall k :: 0 <= k < |SegmentMatch(line).value| ==> SegmentMatch(line).value[k] != ')'
  {
    if StartsWith(line, StartPrefix) {
      var lim := DotLimit(line);
      BacktrackFindsLast(GroupsOf(line), |StartPrefix|, lim);
      if SegmentMatch(line).Some? {
        var p :| |StartPrefix| <= p <= lim && SegmentMatch(line) == GroupsOf(line)(p)
          && forall p' :: p < p' <= lim ==> GroupsOf(line)(p').None?;
        GroupAtShape(line, p);
        assert SegmentMatch(line) == GroupAt(line, p);
        forall p' | p < p' <= lim
          ensures GroupAt(line, p').None?
        {
          assert GroupsOf(line)(p') == GroupAt(line, p');
        }
      } else {
        forall p | |StartPrefix| <= p <= lim
          ensures GroupAt(line, p).None?
        {
          assert GroupsOf(line)(p) == GroupAt(line, p);
        }
      }
    }
  }

  /** `.*` can reach the end of a START WAL LOCATION line that holds no line break. */
  lemma DotReachesEnd(mid: string, seg: string)
    requires forall k :: 0 <= k < |mid| ==> mid[k] != '\n'
    requires forall k :: 0 <= k < |seg| ==> seg[k] != '\n'
    ensures var line := StartPrefix + mid + FileOpen + seg + ")";
      StartsWith(line, StartPrefix) && DotLimit(line) == |line|
  {
    var line := StartPrefix + mid + FileOpen + seg + ")";
    var p := |StartPrefix| + |mid|;
    assert line[..|StartPrefix|] == StartPrefix;
    forall k | |StartPrefix| <= k < |line|
      ensures line[k] != '\n'
    {
      if k < p {
        assert line[k] == mid[k - |StartPrefix|];
      } else if p + |FileOpen| <= k < |line| - 1 {
        assert line[k] == seg[k - p - |FileOpen|];
      }
    }
    assert IndexOf(line[|StartPrefix|..], '\n') == |line| - |StartPrefix|;
  }

  /** No "(file " starts after the one before the segment when the segment holds no '('. */
  lemma NoLaterGroup(mid: string, seg: string)
    requires forall k :: 0 <= k < |seg| ==> seg[k] != '('
    ensures var line := StartPrefix + mid + FileOpen + seg + ")";
      forall p' :: |StartPrefix| + |mid| < p' <= |line| ==> GroupAt(line, p').None?
  {
    var line := StartPrefix + mid + FileOpen + seg + ")";
    var p := |StartPrefix| + |mid|;
    forall p' | p < p' <= |line|
      ensures GroupAt(line, p').None?
    {
      if p' + |FileOpen| <= |line| {
        if p' < p + |FileOpen| {
          assert line[p'] == FileOpen[p' - p];
        } else {
          assert line[p'] == seg[p' - p - |FileOpen|];
        }
        assert line[p'..p' + |FileOpen|][0] != FileOpen[0];
      }
    }
  }

  /** The line pg_stop_backup writes, `START WAL LOCATION: <lsn> (file <segment>)`, yields
      its segment, when neither the location part nor the segment holds a line break, and
      the segment is non-empty and holds no parenthesis. */
  lemma StartWalLocationLine(mid: string, seg: string)
    requires forall k :: 0 <= k < |mid| ==> mid[k] != '\n'
    requires seg != [] && forall k :: 0 <= k < |seg| ==> seg[k] != ')' && seg[k] != '(' && seg[k] != '\n'
    ensures SegmentMatch(StartPrefix + mid + FileOpen + seg + ")") == Some(seg)
  {
    var line := StartPrefix + mid + FileOpen + seg + ")";
    var p := |StartPrefix| + |mid|;
    DotReachesEnd(mid, seg);
    assert line[p..p + |FileOpen|] == FileOpen;
    assert line[p + |FileOpen|..p + |FileOpen| + |seg|] == seg;
    GroupAtFinds(line, p, seg);
    NoLaterGroup(mid, seg);
    SegmentMatchIsLastGroup(line);
  }

  /** The loop over the file's lines: the capture of the first line that matches, or None. */
  function FirstSegment(lines: seq<string>): Option<string>
  {
    if lines == [] then None
    else
      var g := SegmentMatch(lines[0]);
      if g.Some? then g else FirstSegment(lines[1..])
  }

  /** The loop returns None exactly when no line matches, and otherwise the capture of the
      first line that does. */
  lemma {:induction false} FirstSegmentIsFirstMatch(lines: seq<string>)
    ensures FirstSegment(lines).None? <==> forall i :: 0 <= i < |lines| ==> SegmentMatch(lines[i]).None?
    ensures FirstSegment(lines).Some? ==>
      exists i :: (0 <= i < |lines| && FirstSegment(lines) == SegmentMatch(lines[i])
        && forall j :: 0 <= j < i ==> SegmentMatch(lines[j]).None?)
  {
    if lines != [] && SegmentMatch(lines[0]).None? {
      FirstSegmentIsFirstMatch(lines[1..]);
      assert forall i :: 1 <= i < |lines| ==> lines[1..][i - 1] == lines[i];
      if FirstSegment(lines).Some? {
        var i :| 0 <= i < |lines[1..]| && FirstSegment(lines[1..]) == SegmentMatch(lines[1..][i])
          && forall j :: 0 <= j < i ==> SegmentMatch(lines[1..][j]).None?;
        assert FirstSegment(lines) == SegmentMatch(lines[i + 1]);
      }
    }
  }

  /** extract_last_segment_from_backup_label(backup_label) */
  function ExtractLastSegment(backupLabel: string): (r: Option<string>)
  {
    FirstSegment(SplitLines(backupLabel))
  }

  /** A backup_label file whose first line is the `START WAL LOCATION` line yields that
      line's segment, whatever the following lines hold. */
  lemma BackupLabelFileSegment(mid: string, seg: string, rest: string)
    requires forall k :: 0 <= k < |mid| ==> mid[k] != '\n' && !IsLineBreak(mid[k])
    requires seg != [] && forall k :: 0 <= k < |seg| ==> seg[k] != ')' && seg[k] != '(' && !IsLineBreak(seg[k])
    ensures ExtractLastSegment(StartPrefix + mid + FileOpen + seg + ")" + "\n" + rest) == Some(seg)
  {
    var first := StartPrefix + mid + FileOpen + seg + ")";
    forall k | 0 <= k < |first|
      ensures !IsLineBreak(first[k])
    {
      var a := |StartPrefix| + |mid|;
      if k < |StartPrefix| {
        assert first[k] == StartPrefix[k];
      } else if k < a {
        assert first[k] == mid[k - |StartPrefix|];
      } else if k < a + |FileOpen| {
        assert first[k] == FileOpen[k - a];
      } else if k < |first| - 1 {
        assert first[k] == seg[k - a - |FileOpen|];
      }
    }
    SplitLinesNewline(first, rest);
    StartWalLocationLine(mid, seg);
  }
}
