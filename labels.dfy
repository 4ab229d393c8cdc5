/** Backup labels: the `%Y%m%dT%H%M%SZ` name of each backup directory, the Label class that
    parses one into a (date, time) pair of integers, and its comparison operators. */
module Labels {
  import opened Common
  import opened Strings

  /** BACKUP_LABEL_RE.match(s): eight digits, 'T', six digits, 'Z' at the START of s
      (re.match anchors at the start only, so anything may follow). */
  predicate MatchesLabelPattern(s: string)
  {
    |s| >= 16 && IsDigits(s[..8]) && s[8] == 'T' && IsDigits(s[9..15]) && s[15] == 'Z'
  }

  /** An instance of the Label class: the string it was built from and the two integers. */
  datatype Label = Label(text: string, date: nat, time: nat)

  /** Label.__str__ */
  function Str(l: Label): string
  {
    l.text
  }

  /** Label.__eq__, __lt__, __le__, __gt__, __ge__ exactly as written: each compares the
      date and the time separately and joins the two comparisons with `and`. */
  predicate Eq(a: Label, b: Label)
  {
    a.date == b.date && a.time == b.time
  }

  predicate Lt(a: Label, b: Label)
  {
    a.date <= b.date && a.time < b.time
  }

  predicate Le(a: Label, b: Label)
  {
    a.date <= b.date && a.time <= b.time
  }

  predicate Gt(a: Label, b: Label)
  {
    a.date >= b.date && a.time > b.time
  }

  predicate Ge(a: Label, b: Label)
  {
    a.date >= b.date && a.time >= b.time
  }

  /** The order the labels are evidently meant to have: by date, then by time of day. */
  predicate Before(a: Label, b: Label)
  {
    a.date < b.date || (a.date == b.date && a.time < b.time)
  }

  /** `[int(x) for x in parts]`: the first part that is not a number raises ValueError. */
  function Ints(parts: seq<string>): (r: Result<seq<nat>, Error>)
    ensures r.Failure? ==> r.error == ValueError
  {
    if parts == [] then Success([])
    else
      match Int(parts[0])
      case Failure(e) => Failure(e)
      case Success(n) =>
        match Ints(parts[1..])
        case Failure(e) => Failure(e)
        case Success(ns) => Success([n] + ns)
  }

  /** The list comprehension succeeds exactly when every part is a number, and then holds
      each part's value in place. */
  lemma {:induction false} IntsEach(parts: seq<string>)
    ensures Ints(parts).Success? <==> forall i :: 0 <= i < |parts| ==> Int(parts[i]).Success?
    ensures Ints(parts).Success? ==>
      |Ints(parts).value| == |parts| && forall i :: 0 <= i < |parts| ==> Int(parts[i]) == Success(Ints(parts).value[i])
    decreases |parts|
  {
    if parts != [] {
      IntsEach(parts[1..]);
      assert forall i :: 1 <= i < |parts| ==> parts[1..][i - 1] == parts[i];
    }
  }

  /** Label(s): `self.date, self.time = [int(x) for x in s.rstrip('Z').split('T')]`. */
  function ParseLabel(s: string): Result<Label, Error>
  {
    var parts := Split(RStrip(s, 'Z'), 'T');
    match Ints(parts)
    case Failure(e) => Failure(e)
    case Success(ns) => if |ns| == 2 then Success(Label(s, ns[0], ns[1])) else Failure(ValueError)
  }

  /** rstrip('Z') on a matched label keeps its first 15 characters and removes exactly the
      'Z's, so it stops at 15 characters precisely when the rest is all 'Z'. */
  lemma StripMatched(s: string)
    requires MatchesLabelPattern(s)
    ensures var u := RStrip(s, 'Z');
      && |u| >= 15 && u[..15] == s[..15]
      && (|u| == 15 <==> forall k :: 16 <= k < |s| ==> s[k] == 'Z')
      && (|u| != 15 ==> |u| > 16 && u[15] == 'Z')
  {
    var u := RStrip(s, 'Z');
    RStripRemovesOnly(s, 'Z');
    assert s[14] == s[9..15][5];
    assert |u| >= 15;
    if |u| != 15 {
      assert u[|u| - 1] != 'Z';
      assert |u| > 16;
      assert s[|u| - 1] != 'Z';
    }
  }

  /** split('T') of a string that starts with eight digits, 'T' and six digits. */
  lemma SplitMatched(u: string)
    requires |u| >= 15 && IsDigits(u[..8]) && u[8] == 'T' && IsDigits(u[9..15])
    ensures var parts := Split(u, 'T');
      && |parts| >= 2 && parts[0] == u[..8]
      && parts[1] == u[9..][..IndexOf(u[9..], 'T')] && IndexOf(u[9..], 'T') >= 6
      && (|u| == 15 ==> parts == [u[..8], u[9..15]])
  {
    assert forall k :: 0 <= k < 8 ==> u[k] == u[..8][k];
    assert IndexOf(u, 'T') == 8;
    var rest := u[9..];
    assert forall k :: 0 <= k < 6 ==> rest[k] == u[9..15][k];
    assert Split(u, 'T') == [u[..8]] + Split(rest, 'T');
    if |u| == 15 {
      assert rest == u[9..15];
      assert IndexOf(rest, 'T') == 6;
      assert Split(rest, 'T') == [rest];
    }
  }

  /** On a string the label pattern matches, the constructor succeeds exactly when whatever
      follows the first 16 characters is 'Z's (rstrip removes them), and then the date and
      time are the two digit groups and str() gives the string back; any other suffix makes
      int() raise ValueError. */
  lemma ParseMatched(s: string)
    requires MatchesLabelPattern(s)
    ensures ParseLabel(s).Success? <==> forall k :: 16 <= k < |s| ==> s[k] == 'Z'
    ensures ParseLabel(s).Success? ==>
      ParseLabel(s).value == Label(s, Num(s[..8]), Num(s[9..15])) && Str(ParseLabel(s).value) == s
    ensures ParseLabel(s).Failure? ==> ParseLabel(s).error == ValueError
  {
    var u := RStrip(s, 'Z');
    StripMatched(s);
    assert u[..8] == s[..8] && u[9..15] == s[9..15];
    SplitMatched(u);
    var parts := Split(u, 'T');
    IntsEach(parts);
    if |u| == 15 {
      assert parts == [s[..8], s[9..15]];
      assert Int(parts[0]).Success? && Int(parts[1]).Success?;
      var ns := Ints(parts).value;
      assert Int(parts[0]) == Success(ns[0]) && Int(parts[1]) == Success(ns[1]);
    } else {
      var i := IndexOf(u[9..], 'T');
      assert forall k :: 0 <= k < 7 ==> u[9..][k] == u[9 + k] != 'T';
      assert i > 6;
      assert parts[1][6] == u[15];
      assert Int(parts[1]).Failure?;
    }
  }

  /** A clock reading, as datetime.utcnow() gives it. */
  datatype Instant = Instant(year: nat, month: nat, day: nat, hour: nat, minute: nat, second: nat)
  {
    predicate Valid()
    {
      1000 <= year <= 9999 && 1 <= month <= 12 && 1 <= day <= 31 && hour < 24 && minute < 60 && second < 60
    }

    /** Chronological order of two readings. */
    predicate Earlier(o: Instant)
    {
      || year < o.year
      || (year == o.year && month < o.month)
      || (year == o.year && month == o.month && day < o.day)
      || (year == o.year && month == o.month && day == o.day && hour < o.hour)
      || (year == o.year && month == o.month && day == o.day && hour == o.hour && minute < o.minute)
      || (year == o.year && month == o.month && day == o.day && hour == o.hour && minute == o.minute && second < o.second)
    }
  }

  type ClockReading = t: Instant | t.Valid() witness Instant(2000, 1, 1, 0, 0, 0)

  /** `t.strftime('%Y%m%dT%H%M%SZ')`, the string State.label memoizes. */
  function Format(t: ClockReading): (s: string)
    ensures |s| == 16 && MatchesLabelPattern(s)
  {
    var s := Pad(t.year, 4) + Pad(t.month, 2) + Pad(t.day, 2) + "T" + Pad(t.hour, 2) + Pad(t.minute, 2) + Pad(t.second, 2) + "Z";
    assert s[..8] == Pad(t.year, 4) + Pad(t.month, 2) + Pad(t.day, 2);
    assert s[9..15] == Pad(t.hour, 2) + Pad(t.minute, 2) + Pad(t.second, 2);
    s
  }

  function DateNumber(t: Instant): nat
  {
    (t.year * 100 + t.month) * 100 + t.day
  }

  function TimeNumber(t: Instant): nat
  {
    (t.hour * 100 + t.minute) * 100 + t.second
  }

  /** The Label the script builds from the label of a run started at t. */
  function LabelOf(t: ClockReading): Label
  {
    Label(Format(t), DateNumber(t), TimeNumber(t))
  }

  /** Three zero-padded fields read back as one number. */
  lemma ThreeFields(x: nat, wx: nat, y: nat, z: nat)
    requires x < Pow10(wx) && y < 100 && z < 100
    ensures IsDigits(Pad(x, wx) + Pad(y, 2) + Pad(z, 2))
    ensures Num(Pad(x, wx) + Pad(y, 2) + Pad(z, 2)) == (x * 100 + y) * 100 + z
  {
    assert Pow10(2) == 100;
    NumPad(x, wx);
    NumPad(y, 2);
    NumPad(z, 2);
    NumAppend(Pad(x, wx), Pad(y, 2));
    NumAppend(Pad(x, wx) + Pad(y, 2), Pad(z, 2));
  }

  /** The date and time digit groups of a formatted label. */
  lemma FormatGroups(t: ClockReading)
    ensures Format(t)[..8] == Pad(t.year, 4) + Pad(t.month, 2) + Pad(t.day, 2)
    ensures Format(t)[9..15] == Pad(t.hour, 2) + Pad(t.minute, 2) + Pad(t.second, 2)
  {
  }

  /** Round trip: the label string of a clock reading parses back to that reading's date
      and time numbers, and str() of it is the string. */
  lemma FormatRoundTrip(t: ClockReading)
    ensures ParseLabel(Format(t)) == Success(LabelOf(t))
    ensures Str(LabelOf(t)) == Format(t)
  {
    var s := Format(t);
    ParseMatched(s);
    assert ParseLabel(s).Success?;
    FormatGroups(t);
    assert Pow10(4) == 10000 && Pow10(2) == 100;
    ThreeFields(t.year, 4, t.month, t.day);
    assert Num(s[..8]) == DateNumber(t);
    ThreeFields(t.hour, 2, t.minute, t.second);
    assert Num(s[9..15]) == TimeNumber(t);
  }

  /** Comparing hi * base + lo numbers is comparing (hi, lo) pairs lexicographically. */
  lemma PlaceValue(h1: nat, l1: nat, h2: nat, l2: nat, base: nat)
    requires l1 < base && l2 < base
    ensures h1 * base + l1 < h2 * base + l2 <==> h1 < h2 || (h1 == h2 && l1 < l2)
    ensures h1 * base + l1 == h2 * base + l2 <==> h1 == h2 && l1 == l2
  {
    if h1 < h2 {
      assert h1 * base + l1 < (h1 + 1) * base <= h2 * base;
    } else if h2 < h1 {
      assert h2 * base + l2 < (h2 + 1) * base <= h1 * base;
    }
  }

  /** The intended order of labels is the order of the clock readings they were made from. */
  lemma BeforeIsChronological(t1: ClockReading, t2: ClockReading)
    ensures Before(LabelOf(t1), LabelOf(t2)) <==> t1.Earlier(t2)
  {
    PlaceValue(t1.year, t1.month, t2.year, t2.month, 100);
    PlaceValue(t1.year * 100 + t1.month, t1.day, t2.year * 100 + t2.month, t2.day, 100);
    PlaceValue(t1.hour, t1.minute, t2.hour, t2.minute, 100);
    PlaceValue(t1.hour * 100 + t1.minute, t1.second, t2.hour * 100 + t2.minute, t2.second, 100);
  }

  /** The laws the source's operators do satisfy: `<` is irreflexive and transitive (a strict
      partial order), `>` and `>=` are the converses of `<` and `<=`, `<` implies `<=`, and
      between labels of one date they compare the times. */
  lemma SourceOrderLaws(a: Label, b: Label, c: Label)
    ensures Eq(a, b) <==> a.date == b.date && a.time == b.time
    ensures !Lt(a, a)
    ensures Lt(a, b) && Lt(b, c) ==> Lt(a, c)
    ensures Gt(a, b) <==> Lt(b, a)
    ensures Ge(a, b) <==> Le(b, a)
    ensures Lt(a, b) ==> Le(a, b)
    ensures a.date == b.date ==> (Lt(a, b) <==> a.time < b.time) && (Le(a, b) <==> a.time <= b.time)
  {
  }

  /** `<` is not total: a label of a later day taken at an earlier hour is neither less than,
      greater than, nor equal to the earlier label, although it was made later. */
  lemma SourceOrderNotTotal()
    ensures exists t1: ClockReading, t2: ClockReading ::
      t1.Earlier(t2) && !Lt(LabelOf(t1), LabelOf(t2)) && !Gt(LabelOf(t2), LabelOf(t1))
      && !Lt(LabelOf(t2), LabelOf(t1)) && !Eq(LabelOf(t1), LabelOf(t2))
  {
    var t1: ClockReading := Instant(2023, 1, 1, 12, 0, 0);
    var t2: ClockReading := Instant(2023, 1, 2, 0, 0, 0);
    assert DateNumber(t1) == 20230101 && TimeNumber(t1) == 120000;
    assert DateNumber(t2) == 20230102 && TimeNumber(t2) == 0;
    assert t1.Earlier(t2);
  }

  /** Incomparability under `<` is not transitive either, so `<` is not even a strict weak
      order: a binary search over labels ordered by it has no well-defined answer. */
  lemma SourceOrderNotWeak()
    ensures exists a, b, c ::
      !Lt(a, b) && !Lt(b, a) && !Lt(b, c) && !Lt(c, b) && Lt(a, c)
  {
    var a, b, c := Label("", 1, 5), Label("", 2, 1), Label("", 1, 6);
    assert !Lt(a, b) && !Lt(b, a) && !Lt(b, c) && !Lt(c, b) && Lt(a, c);
  }

  /** Because rstrip('Z') removes every trailing 'Z', a directory named like a label with
      an extra 'Z' is accepted too, and __eq__ calls it equal to the label although str()
      differs. */
  lemma ExtraZAccepted(t: ClockReading)
    ensures MatchesLabelPattern(Format(t) + "Z")
    ensures ParseLabel(Format(t) + "Z") == Success(Label(Format(t) + "Z", DateNumber(t), TimeNumber(t)))
    ensures Eq(ParseLabel(Format(t) + "Z").value, LabelOf(t))
    ensures Str(ParseLabel(Format(t) + "Z").value) != Str(LabelOf(t))
  {
    var s := Format(t);
    var z := s + "Z";
    assert z[..8] == s[..8] && z[9..15] == s[9..15];
    FormatRoundTrip(t);
    ParseMatched(s);
    ParseMatched(z);
  }

  /** The labels of a sequence are in order for lt: no element is lt-below an earlier one. */
  ghost predicate InOrder(lt: (Label, Label) -> bool, s: seq<Label>)
  {
    forall i, j :: 0 <= i < j < |s| ==> !lt(s[j], s[i])
  }

  /** lt is a strict weak order among the elements of s: irreflexive, transitive, and
      whenever lt(a, c), every b is above a or below c. */
  ghost predicate StrictWeakOn(lt: (Label, Label) -> bool, s: seq<Label>)
  {
    && (forall a | a in s :: !lt(a, a))
    && (forall a, b, c | a in s && b in s && c in s :: lt(a, b) && lt(b, c) ==> lt(a, c))
    && (forall a, b, c | a in s && b in s && c in s :: lt(a, c) ==> lt(a, b) || lt(b, c))
  }

  ghost predicate SameDate(s: seq<Label>)
  {
    forall a, b | a in s && b in s :: a.date == b.date
  }

  /** Among labels of one date, the source's `<` is a strict weak order, and being in order
      for it means being sorted by time. */
  lemma SameDateOrder(s: seq<Label>)
    requires SameDate(s)
    ensures StrictWeakOn(Lt, s)
    ensures InOrder(Lt, s) <==> forall i, j :: 0 <= i < j < |s| ==> s[i].time <= s[j].time
  {
  }

  /** The intended order is a strict weak order on every sequence, and being in order for it
      means being in chronological order. */
  lemma BeforeOrder(s: seq<Label>)
    ensures StrictWeakOn(Before, s)
    ensures InOrder(Before, s) <==>
      forall i, j :: 0 <= i < j < |s| ==> s[i].date < s[j].date || (s[i].date == s[j].date && s[i].time <= s[j].time)
  {
  }

  /** A chronologically ordered sequence is also in order for the source's `<`. */
  lemma ChronologicalIsInOrder(s: seq<Label>)
    requires InOrder(Before, s)
    ensures InOrder(Lt, s)
  {
  }
}
