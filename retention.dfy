/** cleanup_old_backups: which backups `--keep` removes, and what that choice means for the
    labels get_current_labels lists. */
module Retention {
  import opened Common
  import opened Strings
  import opened Labels
  import opened Catalog

  /** `labels[:len(labels) - keep]` when there are more labels than keep, else nothing. A
      negative keep makes the slice bound exceed the length, so every label goes. */
  function SelectForRemoval<T>(labels: seq<T>, keep: int): (r: seq<T>)
    ensures |r| <= |labels| && r == labels[..|r|]
    ensures |labels| <= keep ==> r == []
    ensures |labels| > keep >= 0 ==> |labels| - |r| == keep
    ensures keep < 0 ==> r == labels
  {
    if |labels| > keep then
      var n := |labels| - keep;
      if n <= |labels| then labels[..n] else labels
    else []
  }

  /** Removal is a split: the removed labels followed by the kept ones give back the listing,
      and a second pass over the kept labels with the same keep removes nothing. */
  lemma RemovalSplits<T>(labels: seq<T>, keep: int)
    requires keep >= 0
    ensures var r := SelectForRemoval(labels, keep);
      r + labels[|r|..] == labels && SelectForRemoval(labels[|r|..], keep) == []
  {
    var r := SelectForRemoval(labels, keep);
    assert r + labels[|r|..] == labels[..|r|] + labels[|r|..];
  }

  /** For a listing in chronological order, no kept backup is older than a removed one. */
  lemma {:induction false} RemovesOldest(labels: seq<Label>, keep: int)
    requires InOrder(Before, labels)
    ensures var r := SelectForRemoval(labels, keep);
      forall i, j :: 0 <= i < |r| <= j < |labels| ==> !Before(labels[j], r[i])
  {
    var r := SelectForRemoval(labels, keep);
    forall i, j | 0 <= i < |r| <= j < |labels|
      ensures !Before(labels[j], r[i])
    {
      assert r[i] == labels[i];
    }
  }

  /** On a listing already in chronological order (rsync lists names sorted, and the
      label format makes name order chronological), the source's `<` and the intended order
      agree: insorting with either gives back the listing itself. */
  lemma {:induction false} OrdersAgreeOnChronologicalListing(listed: seq<Label>)
    requires InOrder(Before, listed)
    ensures InsortAll(listed, Lt) == listed && InsortAll(listed, Before) == listed
  {
    ChronologicalIsInOrder(listed);
    InsortAllKeepsOrdered(listed, Lt);
    InsortAllKeepsOrdered(listed, Before);
  }

  /** Among backups taken on one date the source's `<` does sort: insorting with it gives a
      permutation of the listing, sorted by time of day. */
  lemma {:induction false} SameDateSortedByTime(listed: seq<Label>)
    requires SameDate(listed)
    ensures var r := InsortAll(listed, Lt);
      && multiset(r) == multiset(listed)
      && forall i, j :: 0 <= i < j < |r| ==> r[i].time <= r[j].time
  {
    var r := InsortAll(listed, Lt);
    SameDateOrder(listed);
    InsortAllSorts(listed, Lt);
    InsortAllPermutes(listed, Lt);
    assert SameDate(r) by {
      forall a, b | a in r && b in r
        ensures a.date == b.date
      {
        assert a in multiset(listed) && b in multiset(listed);
      }
    }
    SameDateOrder(r);
  }

  /** A listing of two lines that each name a backup lists those two backups, in order. */
  lemma TwoBackupListing(a: string, b: string, x: Label, y: Label)
    requires Entry(a) == Success(Some(x)) && Entry(b) == Success(Some(y))
    ensures Entries([a, b]).Success? && Entries([a, b]).value == [x, y]
  {
    var lines := [a, b];
    EntriesSnoc(lines, 0);
    assert lines[..0] == [];
    assert Entries(lines[..1]).value == [x];
    EntriesSnoc(lines, 1);
    assert lines[..2] == lines;
  }

  /** A listing of a newer backup followed by an older one, the two incomparable under the
      source's `<` (the newer date carries the earlier time of day): both are listed, and
      the listing is already in order for `<`. */
  lemma ReversedListing(prefix: string, older: ClockReading, newer: ClockReading)
    requires older.Earlier(newer) && TimeNumber(newer) <= TimeNumber(older)
    ensures var lines := [prefix + " " + Format(newer), prefix + " " + Format(older)];
      && Entries(lines).Success? && Entries(lines).value == [LabelOf(newer), LabelOf(older)]
      && InOrder(Lt, Entries(lines).value)
  {
    var lines := [prefix + " " + Format(newer), prefix + " " + Format(older)];
    ListingLineEntry(prefix, newer, "x");
    ListingLineEntry(prefix, older, "x");
    TwoBackupListing(lines[0], lines[1], LabelOf(newer), LabelOf(older));
  }

  /** What the source makes of such a reversed listing: insort leaves the listing order as
      it is, so `--keep=1` removes the newest backup and keeps the older one, and
      cleanup_wal_archive takes the newest backup for the oldest one. */
  method ReversedListingAsWritten(older: ClockReading, newer: ClockReading, prefix: string)
    returns (removed: seq<string>, kept: seq<string>, oldest: string)
    requires older.Earlier(newer) && TimeNumber(newer) <= TimeNumber(older)
    ensures removed == [Format(newer)] && kept == [Format(older)]
    ensures oldest == Format(newer)
  {
    var lines := [prefix + " " + Format(newer), prefix + " " + Format(older)];
    ReversedListing(prefix, older, newer);
    InsortAllKeepsOrdered(Entries(lines).value, Lt);
    var listed := Collect(lines, Lt);
    var names := Texts(listed.value);
    TextsEach(listed.value);
    assert names == [LabelOf(newer).text, LabelOf(older).text];
    removed := SelectForRemoval(names, 1);
    kept := names[|removed|..];
    oldest := names[0];
  }
}
