/** get_current_labels: the backups at the destination, read from `rsync --list-only` output
    and kept in a list that bisect.insort grows. */
module Catalog {
  import opened Common
  import opened Strings
  import opened Labels

  /** What one listing line contributes: its last token, parsed into a Label when the label
      pattern matches at its start; nothing for other names (`wal_archive`, `.`); IndexError
      for a line with no token; ValueError for a matched name that int() rejects. */
  function Entry(line: string): Result<Option<Label>, Error>
  {
    match LastToken(line)
    case None => Failure(IndexError(line))
    case Some(name) =>
      if !MatchesLabelPattern(name) then Success(None)
      else
        match ParseLabel(name)
        case Failure(e) => Failure(e)
        case Success(l) => Success(Some(l))
  }

  /** The labels read so far, extended by what the next line contributes. */
  function Extend(read: Result<seq<Label>, Error>, next: Result<Option<Label>, Error>): (r: Result<seq<Label>, Error>)
    ensures r.Success? <==> read.Success? && next.Success?
    ensures r.Failure? ==> r.error == if read.Failure? then read.error else next.error
  {
    match read
    case Failure(e) => Failure(e)
    case Success(ls) =>
      match next
      case Failure(e) => Failure(e)
      case Success(None) => Success(ls)
      case Success(Some(l)) => Success(ls + [l])
  }

  /** Reading a listing line by line with `entry`: the labels in listing order, or the error
      of the first line that raises. */
  function ReadAll(entry: string -> Result<Option<Label>, Error>, lines: seq<string>): (r: Result<seq<Label>, Error>)
    ensures r.Success? ==> |r.value| <= |lines|
    decreases |lines|
  {
    if lines == [] then Success([]) else Extend(ReadAll(entry, lines[..|lines| - 1]), entry(lines[|lines| - 1]))
  }

  /** The labels of a listing in listing order, or the error of its first line that raises. */
  function Entries(lines: seq<string>): (r: Result<seq<Label>, Error>)
    ensures r.Success? ==> |r.value| <= |lines|
  {
    ReadAll(Entry, lines)
  }

  /** The names of a listing that the label pattern matches, in listing order. */
  function MatchedNames(lines: seq<string>): seq<string>
    decreases |lines|
  {
    if lines == [] then []
    else
      var last := LastToken(lines[|lines| - 1]);
      MatchedNames(lines[..|lines| - 1])
        + if last.Some? && MatchesLabelPattern(last.value) then [last.value] else []
  }

  /** The strings the labels were parsed from. */
  function Texts(ls: seq<Label>): (r: seq<string>)
    ensures |r| == |ls|
  {
    seq(|ls|, i requires 0 <= i < |ls| => Str(ls[i]))
  }

  lemma TextsEach(ls: seq<Label>)
    ensures forall i :: 0 <= i < |ls| ==> Texts(ls)[i] == Str(ls[i])
  {
  }

  lemma TextsAppend(u: seq<Label>, v: seq<Label>)
    ensures Texts(u + v) == Texts(u) + Texts(v)
  {
    TextsEach(u + v);
    TextsEach(u);
    TextsEach(v);
  }

  /** Taking label k out of b takes its string out of b's strings. */
  lemma TextsRemove(b: seq<Label>, k: nat)
    requires k < |b|
    ensures multiset(Texts(b)) == multiset{Str(b[k])} + multiset(Texts(b[..k] + b[k + 1..]))
  {
    var u, v := b[..k], b[k + 1..];
    assert b == u + [b[k]] + v;
    TextsAppend(u + [b[k]], v);
    TextsAppend(u, [b[k]]);
    TextsAppend(u, v);
    TextsEach([b[k]]);
  }

  /** Taking element k out of b. */
  lemma LabelRemove(b: seq<Label>, k: nat)
    requires k < |b|
    ensures multiset(b[..k] + b[k + 1..]) == multiset(b) - multiset{b[k]}
  {
    assert b == b[..k] + [b[k]] + b[k + 1..];
  }

  /** Labels that are a permutation of each other have strings that are. */
  lemma {:induction false} TextsPermutes(a: seq<Label>, b: seq<Label>)
    requires multiset(a) == multiset(b)
    ensures multiset(Texts(a)) == multiset(Texts(b))
    decreases |a|
  {
    if a != [] {
      var x := a[0];
      assert x in b by {
        assert x in multiset(a);
      }
      var k :| 0 <= k < |b| && b[k] == x;
      var rest := b[..k] + b[k + 1..];
      assert multiset(rest) == multiset(a[1..]) by {
        LabelRemove(b, k);
        assert a == [x] + a[1..];
        assert multiset(a) == multiset{x} + multiset(a[1..]);
        assert multiset(a[1..]) == multiset(a) - multiset{x};
      }
      TextsPermutes(a[1..], rest);
      assert multiset(Texts(a)) == multiset{Str(x)} + multiset(Texts(a[1..])) by {
        TextsRemove(a, 0);
        assert a[..0] + a[1..] == a[1..];
      }
      TextsRemove(b, k);
    }
  }

  /** One line is read without error exactly when it has a token and, where the pattern
      matches that token, the token parses; the Label it contributes carries the token. */
  lemma EntryOutcome(line: string)
    ensures Entry(line).Success? <==>
      LastToken(line).Some? && (MatchesLabelPattern(LastToken(line).value) ==> ParseLabel(LastToken(line).value).Success?)
    ensures Entry(line).Success? && Entry(line).value.Some? ==>
      LastToken(line).Some? && MatchesLabelPattern(LastToken(line).value) && Entry(line).value.value.text == LastToken(line).value
    ensures Entry(line).Success? && Entry(line).value.None? ==>
      !MatchesLabelPattern(LastToken(line).value)
  {
    if LastToken(line).Some? && MatchesLabelPattern(LastToken(line).value) {
      ParseMatched(LastToken(line).value);
    }
  }

  /** Reading one more line: the listing so far, then that line's entry. */
  lemma EntriesSnoc(lines: seq<string>, n: nat)
    requires n < |lines|
    ensures Entries(lines[..n + 1]) == Extend(Entries(lines[..n]), Entry(lines[n]))
  {
    assert lines[..n + 1][..n] == lines[..n];
  }

  /** Whatever each line contributes, the listing is read without error exactly when every
      line is. */
  lemma {:induction false} ReadAllSucceeds(entry: string -> Result<Option<Label>, Error>, lines: seq<string>)
    ensures ReadAll(entry, lines).Success? <==> forall i :: 0 <= i < |lines| ==> entry(lines[i]).Success?
    decreases |lines|
  {
    if lines != [] {
      var n := |lines| - 1;
      var init := lines[..n];
      ReadAllSucceeds(entry, init);
      assert forall i :: 0 <= i < n ==> init[i] == lines[i];
    }
  }

  /** The listing is read without error exactly when every line is. */
  lemma EntriesSucceed(lines: seq<string>)
    ensures Entries(lines).Success? <==> forall i :: 0 <= i < |lines| ==> Entry(lines[i]).Success?
  {
    ReadAllSucceeds(Entry, lines);
  }

  /** When the listing is read without error, the labels read are the matched names, in
      listing order, and every other entry is dropped. */
  lemma {:induction false} EntriesAreMatchedNames(lines: seq<string>)
    requires Entries(lines).Success?
    ensures Texts(Entries(lines).value) == MatchedNames(lines)
    decreases |lines|
  {
    if lines != [] {
      var init := lines[..|lines| - 1];
      EntriesAreMatchedNames(init);
      var last := lines[|lines| - 1];
      EntryOutcome(last);
      var ls := Entries(init).value;
      if Entry(last).value.Some? {
        assert Entries(lines).value == ls + [Entry(last).value.value];
        TextsAppend(ls, [Entry(last).value.value]);
        TextsEach([Entry(last).value.value]);
        assert Texts(ls + [Entry(last).value.value]) == Texts(ls) + [LastToken(last).value];
      } else {
        assert Entries(lines).value == ls;
      }
    }
  }

  /** A listing line ending in a name without whitespace contributes that name. */
  lemma ListingLineName(prefix: string, name: string)
    requires name != [] && forall k :: 0 <= k < |name| ==> !IsSpace(name[k])
    ensures LastToken(prefix + " " + name) == Some(name)
  {
    var line := prefix + " " + name;
    assert line[|prefix|] == ' ';
    assert TrailingEnd(line) == |line|;
    assert line[..|line|] == line;
    var b := WordStart(line);
    WordStartStopsAtSpace(line);
    assert b == |prefix| + 1;
    assert line[b..] == name;
  }

  /** A listing line that ends in a backup's label contributes that backup's Label; one that
      ends in a name too short for the pattern (`wal_archive`) contributes nothing. */
  lemma ListingLineEntry(prefix: string, t: ClockReading, other: string)
    requires other != [] && |other| < 16 && forall k :: 0 <= k < |other| ==> !IsSpace(other[k])
    ensures Entry(prefix + " " + Format(t)) == Success(Some(LabelOf(t)))
    ensures Entry(prefix + " " + other) == Success(None)
  {
    var s := Format(t);
    forall k | 0 <= k < |s|
      ensures !IsSpace(s[k])
    {
      if k < 8 {
        assert s[k] == s[..8][k];
      } else if 8 < k < 15 {
        assert s[k] == s[9..15][k - 9];
      }
    }
    ListingLineName(prefix, s);
    ListingLineName(prefix, other);
    FormatRoundTrip(t);
  }

  /** Once a line of the listing raises, the listing raises that error whatever follows. */
  lemma {:induction false} FirstErrorStands(lines: seq<string>, n: nat)
    requires n <= |lines| && Entries(lines[..n]).Failure?
    ensures Entries(lines) == Entries(lines[..n])
    decreases |lines|
  {
    if n < |lines| {
      var init := lines[..|lines| - 1];
      assert init[..n] == lines[..n];
      FirstErrorStands(init, n);
    } else {
      assert lines[..n] == lines;
    }
  }

  /** bisect.bisect_right(a, x) searching between lo and hi: `hi` moves down to `mid` when
      x < a[mid], `lo` moves up past `mid` otherwise. */
  function Bisect(a: seq<Label>, x: Label, lt: (Label, Label) -> bool, lo: nat, hi: nat): (pos: nat)
    requires lo <= hi <= |a|
    ensures lo <= pos <= hi
    decreases hi - lo
  {
    if lo < hi then
      var mid := (lo + hi) / 2;
      if lt(x, a[mid]) then Bisect(a, x, lt, lo, mid) else Bisect(a, x, lt, mid + 1, hi)
    else lo
  }

  /** Whatever order a is in, the search keeps the boundary fact it starts with below:
      the element just before the position is not above x. */
  lemma {:induction false} BisectAfterNotAbove(a: seq<Label>, x: Label, lt: (Label, Label) -> bool, lo: nat, hi: nat)
    requires lo <= hi <= |a|
    requires 0 < lo ==> !lt(x, a[lo - 1])
    ensures var pos := Bisect(a, x, lt, lo, hi);
      0 < pos ==> !lt(x, a[pos - 1])
    decreases hi - lo
  {
    if lo < hi {
      var mid := (lo + hi) / 2;
      assert lo <= mid < hi;
      if lt(x, a[mid]) {
        BisectAfterNotAbove(a, x, lt, lo, mid);
        assert Bisect(a, x, lt, lo, hi) == Bisect(a, x, lt, lo, mid);
      } else {
        BisectAfterNotAbove(a, x, lt, mid + 1, hi);
        assert Bisect(a, x, lt, lo, hi) == Bisect(a, x, lt, mid + 1, hi);
      }
    }
  }

  /** Likewise above: the element at the position, if any, is above x. */
  lemma {:induction false} BisectAtAbove(a: seq<Label>, x: Label, lt: (Label, Label) -> bool, lo: nat, hi: nat)
    requires lo <= hi <= |a|
    requires hi < |a| ==> lt(x, a[hi])
    ensures var pos := Bisect(a, x, lt, lo, hi);
      pos < |a| ==> lt(x, a[pos])
    decreases hi - lo
  {
    if lo < hi {
      var mid := (lo + hi) / 2;
      assert lo <= mid < hi;
      if lt(x, a[mid]) {
        BisectAtAbove(a, x, lt, lo, mid);
      } else {
        BisectAtAbove(a, x, lt, mid + 1, hi);
      }
    }
  }

  /** When no element of a is above x, the search ends at hi. */
  lemma {:induction false} BisectPastAll(a: seq<Label>, x: Label, lt: (Label, Label) -> bool, lo: nat, hi: nat)
    requires lo <= hi <= |a|
    requires forall i :: 0 <= i < |a| ==> !lt(x, a[i])
    ensures Bisect(a, x, lt, lo, hi) == hi
    decreases hi - lo
  {
    if lo < hi {
      BisectPastAll(a, x, lt, (lo + hi) / 2 + 1, hi);
    }
  }

  /** bisect.bisect_right(a, x): the loop that computes Bisect over the whole list. */
  method BisectRight(a: seq<Label>, x: Label, lt: (Label, Label) -> bool) returns (lo: nat)
    ensures lo == Bisect(a, x, lt, 0, |a|)
  {
    lo := 0;
    var hi := |a|;
    while lo < hi
      invariant 0 <= lo <= hi <= |a|
      invariant Bisect(a, x, lt, lo, hi) == Bisect(a, x, lt, 0, |a|)
      decreases hi - lo
    {
      var mid := (lo + hi) / 2;
      if lt(x, a[mid]) {
        hi := mid;
      } else {
        lo := mid + 1;
      }
    }
  }

  /** a with x inserted where bisect_right puts it. */
  function Inserted(a: seq<Label>, x: Label, lt: (Label, Label) -> bool): seq<Label>
  {
    var lo := Bisect(a, x, lt, 0, |a|);
    a[..lo] + [x] + a[lo..]
  }

  /** bisect.insort(a, x) */
  method Insort(a: seq<Label>, x: Label, lt: (Label, Label) -> bool) returns (b: seq<Label>)
    ensures b == Inserted(a, x, lt)
  {
    var lo := BisectRight(a, x, lt);
    b := a[..lo] + [x] + a[lo..];
  }

  /** Where lt is a strict weak order and a is in order, an insertion point with the two
      boundary properties of Bisect splits a into the elements not above x and those above
      it, so inserting x there keeps a in order. */
  lemma InsertKeepsOrder(a: seq<Label>, x: Label, lo: nat, lt: (Label, Label) -> bool)
    requires lo <= |a| && (lo == 0 || !lt(x, a[lo - 1])) && (lo == |a| || lt(x, a[lo]))
    requires InOrder(lt, a) && StrictWeakOn(lt, a + [x])
    ensures InOrder(lt, a[..lo] + [x] + a[lo..])
  {
    assert forall i | 0 <= i < lo :: !lt(x, a[i]) by {
      forall i | 0 <= i < lo - 1
        ensures !lt(x, a[i])
      {
        assert x in a + [x] && a[lo - 1] in a + [x] && a[i] in a + [x];
        assert !lt(a[lo - 1], a[i]);
      }
    }
    assert forall j | lo <= j < |a| :: lt(x, a[j]) && !lt(a[j], x) by {
      forall j | lo <= j < |a|
        ensures lt(x, a[j]) && !lt(a[j], x)
      {
        assert x in a + [x] && a[lo] in a + [x] && a[j] in a + [x];
        assert j == lo || !lt(a[j], a[lo]);
      }
    }
    var b := a[..lo] + [x] + a[lo..];
    assert |b| == |a| + 1 && b[lo] == x;
    assert forall k | 0 <= k < lo :: b[k] == a[k];
    assert forall k | lo < k < |b| :: b[k] == a[k - 1];
    forall i, j | 0 <= i < j < |b|
      ensures !lt(b[j], b[i])
    {
      if j < lo || i > lo {
        var i', j' := if i < lo then i else i - 1, if j < lo then j else j - 1;
        assert b[i] == a[i'] && b[j] == a[j'];
      } else if i == lo {
        assert b[j] == a[j - 1];
      } else if j == lo {
        assert b[i] == a[i];
      } else {
        assert b[i] == a[i] && b[j] == a[j - 1];
      }
    }
  }

  /** The list get_current_labels builds: every listed label, in listing order, insorted
      into the list built from those before it. */
  function InsortAll(listed: seq<Label>, lt: (Label, Label) -> bool): (r: seq<Label>)
    ensures |r| == |listed|
    decreases |listed|
  {
    if listed == [] then []
    else Inserted(InsortAll(listed[..|listed| - 1], lt), listed[|listed| - 1], lt)
  }

  /** Insorting loses and adds nothing: the list is a permutation of the listed labels. */
  lemma {:induction false} InsortAllPermutes(listed: seq<Label>, lt: (Label, Label) -> bool)
    ensures multiset(InsortAll(listed, lt)) == multiset(listed)
    decreases |listed|
  {
    if listed != [] {
      var init, x := listed[..|listed| - 1], listed[|listed| - 1];
      assert listed == init + [x];
      var a := InsortAll(init, lt);
      InsortAllPermutes(init, lt);
      var lo := Bisect(a, x, lt, 0, |a|);
      assert a == a[..lo] + a[lo..];
    }
  }

  /** A listing already in order for lt comes out as listed: each label goes last. */
  lemma {:induction false} InsortAllKeepsOrdered(listed: seq<Label>, lt: (Label, Label) -> bool)
    requires InOrder(lt, listed)
    ensures InsortAll(listed, lt) == listed
    decreases |listed|
  {
    if listed != [] {
      var init, x := listed[..|listed| - 1], listed[|listed| - 1];
      assert listed == init + [x];
      assert InOrder(lt, init) by {
        forall i, j | 0 <= i < j < |init|
          ensures !lt(init[j], init[i])
        {
          assert init[i] == listed[i] && init[j] == listed[j];
        }
      }
      InsortAllKeepsOrdered(init, lt);
      forall i | 0 <= i < |init|
        ensures !lt(x, init[i])
      {
        assert init[i] == listed[i];
      }
      BisectPastAll(init, x, lt, 0, |init|);
    }
  }

  /** A strict weak order on t is one on any s whose elements are all in t. */
  lemma StrictWeakOnPart(lt: (Label, Label) -> bool, s: seq<Label>, t: seq<Label>)
    requires StrictWeakOn(lt, t) && forall y :: y in s ==> y in t
    ensures StrictWeakOn(lt, s)
  {
  }

  /** Where lt is a strict weak order on the listed labels, the list comes out in order. */
  lemma {:induction false} InsortAllSorts(listed: seq<Label>, lt: (Label, Label) -> bool)
    requires StrictWeakOn(lt, listed)
    ensures InOrder(lt, InsortAll(listed, lt))
    decreases |listed|
  {
    if listed != [] {
      var init, x := listed[..|listed| - 1], listed[|listed| - 1];
      var a := InsortAll(init, lt);
      assert listed == init + [x];
      assert InOrder(lt, a) by {
        StrictWeakOnPart(lt, init, listed);
        InsortAllSorts(init, lt);
      }
      assert StrictWeakOn(lt, a + [x]) by {
        InsortAllPermutes(init, lt);
        forall y | y in a + [x]
          ensures y in listed
        {
          if y in a {
            assert y in multiset(init);
          }
        }
        StrictWeakOnPart(lt, a + [x], listed);
      }
      var lo := Bisect(a, x, lt, 0, |a|);
      BisectAfterNotAbove(a, x, lt, 0, |a|);
      BisectAtAbove(a, x, lt, 0, |a|);
      InsertKeepsOrder(a, x, lo, lt);
    }
  }

  /** The loop of get_current_labels over the listing lines: read each line's entry (see
      Entry), and insort the Label of every token the pattern matches. It raises the first
      line's error, and otherwise builds InsortAll of the listed labels. */
  method Collect(lines: seq<string>, lt: (Label, Label) -> bool) returns (r: Result<seq<Label>, Error>)
    ensures Entries(lines).Failure? ==> r == Failure(Entries(lines).error)
    ensures Entries(lines).Success? ==> r == Success(InsortAll(Entries(lines).value, lt))
  {
    var labels: seq<Label> := [];
    ghost var listed: seq<Label> := [];
    var i := 0;
    while i < |lines|
      invariant 0 <= i <= |lines|
      invariant Entries(lines[..i]) == Success(listed)
      invariant labels == InsortAll(listed, lt)
    {
      EntriesSnoc(lines, i);
      var entry := Entry(lines[i]);
      if entry.Failure? {
        FirstErrorStands(lines, i + 1);
        return Failure(entry.error);
      }
      if entry.value.Some? {
        var x := entry.value.value;
        labels := Insort(labels, x, lt);
        assert (listed + [x])[..|listed|] == listed;
        listed := listed + [x];
      }
      i := i + 1;
    }
    assert lines[..i] == lines;
    return Success(labels);
  }

  /** The listing ordered by the intended order instead: a permutation of the listed labels
      in chronological order, whatever order the listing came in. */
  method CollectChronological(lines: seq<string>) returns (r: Result<seq<Label>, Error>)
    ensures Entries(lines).Failure? ==> r == Failure(Entries(lines).error)
    ensures Entries(lines).Success? ==>
      && r.Success? && multiset(r.value) == multiset(Entries(lines).value)
      && forall i, j :: 0 <= i < j < |r.value| ==>
           r.value[i].date < r.value[j].date || (r.value[i].date == r.value[j].date && r.value[i].time <= r.value[j].time)
  {
    r := Collect(lines, Before);
    if r.Success? {
      var listed := Entries(lines).value;
      BeforeOrder(listed);
      InsortAllPermutes(listed, Before);
      InsortAllSorts(listed, Before);
      BeforeOrder(r.value);
    }
  }
}
