/** The backup script's run: the State object with its memoized label and rsync options, the
    steps main sequences (start the backup, copy the data directory, stop the backup and write
    its files, remove old backups, clean the WAL archive), and what each step does to the
    world, as a log of events. The database, rsync, the clock and the filesystem answer from
    an Environment fixed in advance. */
module Backup {
  import opened Common
  import opened Strings
  import opened Labels
  import opened Catalog
  import opened Retention
  import opened Commands
  import opened WalCutoff

  /** The SQL the script runs: pg_start_backup(label), SHOW data_directory, pg_stop_backup. */
  datatype Query = StartBackup(lbl: string) | ShowDataDirectory | StopBackup

  /** What the script does to the world, in the order it does it. */
  datatype Event =
    | Sql(query: Query)                           // cursor.execute
    | Run(argv: seq<string>)                      // subprocess.check_call / check_output
    | MakeScratch(path: string)                   // tempfile.mkdtemp
    | RemoveScratch(path: string)                 // os.rmdir
    | StageTemp(path: string, contents: string)   // NamedTemporaryFile written and flushed
    | DiscardTemp(path: string)                   // the temporary file closed (and so deleted)
    | ReadFile(path: string)                      // open(path).read()

  /** The row pg_stop_backup(false, true) returns: the last WAL segment, the contents of the
      backup_label file, and those of the tablespace_map file (None for SQL NULL). */
  datatype StopRow = StopRow(lastSegment: string, labelFile: string, tablespaceMap: Option<string>)

  /** What a part of the run does: the events it causes, in order, and how it ends. */
  datatype Part<T> = Part(events: seq<Event>, result: Result<T, Error>)

  /** The answers of everything outside the script. The clock and the commands are indexed by
      position in the event log: `clock(n)` is what utcnow() gives once n events have
      happened, and `outcome(n)` is how the command logged as event n ends. */
  datatype Environment = Environment(
    clock: nat -> ClockReading,
    outcome: nat -> Outcome,
    dataDirectory: string,
    stopRow: StopRow,
    files: map<string, string>,
    scratchDir: string,
    tempFile: string)

  /** The `state` object: `_label` and `_rsync_opts` (the database connection and cursor are
      not modelled), and the log of what the run has done. */
  class State {
    var runLabel: Option<string>
    var rsyncOpts: Option<string>
    var log: seq<Event>
    const env: Environment

    /** A label, once chosen, is a `%Y%m%dT%H%M%SZ` string. */
    ghost predicate Valid()
      reads this
    {
      runLabel.Some? ==> |runLabel.value| == 16 && MatchesLabelPattern(runLabel.value)
    }

    /** What no step changes: the options stay, and so does a label once chosen. */
    twostate predicate Kept()
      reads this
    {
      && rsyncOpts == old(rsyncOpts)
      && (old(runLabel).Some? ==> runLabel == old(runLabel))
    }

    /** State.__init__ */
    constructor(env: Environment)
      ensures Valid()
      ensures runLabel == None && rsyncOpts == None && log == [] && this.env == env
    {
      runLabel := None;
      rsyncOpts := None;
      log := [];
      this.env := env;
    }

    /** State.set_rsync_opts */
    method SetRsyncOpts(opts: Option<string>)
      modifies this
      ensures rsyncOpts == opts && runLabel == old(runLabel) && log == old(log)
    {
      rsyncOpts := opts;
    }

    /** The State.label property: chosen from the clock on first use, the same string on
      every later use. */
    method GetLabel() returns (l: string)
      requires Valid()
      modifies this
      ensures Valid() && Kept() && log == old(log)
      ensures runLabel == Some(l) && |l| == 16 && MatchesLabelPattern(l)
      ensures old(runLabel).Some? ==> l == old(runLabel).value
      ensures old(runLabel).None? ==> l == Format(env.clock(|log|))
    {
      if !Truthy(runLabel) {
        runLabel := Some(Format(env.clock(|log|)));
      }
      l := runLabel.value;
    }
  }


  /** The kinds of event each part of a run can cause: the backup itself talks to the
      database and copies files, retention runs rsync in a scratch directory's name, and the
      archive clean-up reads a backup_label file and runs commands. */
  ghost predicate BackupEvents(events: seq<Event>)
  {
    forall i :: 0 <= i < |events| ==> events[i].Sql? || events[i].Run? || events[i].StageTemp? || events[i].DiscardTemp?
  }

  ghost predicate RetentionEvents(events: seq<Event>)
  {
    forall i :: 0 <= i < |events| ==> events[i].Run? || events[i].MakeScratch? || events[i].RemoveScratch?
  }

  ghost predicate ArchiveEvents(events: seq<Event>)
  {
    forall i :: 0 <= i < |events| ==> events[i].Run? || events[i].ReadFile?
  }

  /** subprocess.check_call(argv) */
  method Call(st: State, argv: seq<string>) returns (r: Result<(), Error>)
    modifies st
    ensures st.runLabel == old(st.runLabel) && st.rsyncOpts == old(st.rsyncOpts)
    ensures st.log == old(st.log) + [Run(argv)]
    ensures r == CheckCall(argv, st.env.outcome(|old(st.log)|))
  {
    r := CheckCall(argv, st.env.outcome(|st.log|));
    st.log := st.log + [Run(argv)];
  }

  /** initiate_backup: pg_start_backup with the run's label (chosen here when not yet). */
  method InitiateBackup(st: State) returns (ghost events: seq<Event>)
    requires st.Valid()
    modifies st
    ensures st.Valid() && st.Kept() && st.runLabel.Some?
    ensures old(st.runLabel).None? ==> st.runLabel.value == Format(st.env.clock(|old(st.log)|))
    ensures st.log == old(st.log) + events && BackupEvents(events)
    ensures events == [Sql(StartBackup(st.runLabel.value))]
  {
    var l := st.GetLabel();
    st.log := st.log + [Sql(StartBackup(l))];
    events := [Sql(StartBackup(l))];
  }

  /** perform_backup: rsync the data directory into backup_path/label. Exit status 24 is
      tolerated; with connect options set, rsync_cmd raises NameError before any command. */
  method PerformBackup(st: State, backupPath: string, backupOpts: seq<string>) returns (r: Result<(), Error>, ghost events: seq<Event>)
    requires st.Valid()
    modifies st
    ensures st.Valid() && st.Kept() && st.runLabel.Some?
    ensures old(st.runLabel).None? ==> st.runLabel.value == Format(st.env.clock(|old(st.log)| + 1))
    ensures st.log == old(st.log) + events && BackupEvents(events)
    ensures Truthy(st.rsyncOpts) ==> r == Failure(NameError) && events == [Sql(ShowDataDirectory)]
    ensures !Truthy(st.rsyncOpts) ==>
      var argv := BackupArgv(["rsync"], backupOpts, st.env.dataDirectory, backupPath, st.runLabel.value);
      && events == [Sql(ShowDataDirectory), Run(argv)]
      && r == BackupCallResult(argv, st.env.outcome(|old(st.log)| + 1))
  {
    st.log := st.log + [Sql(ShowDataDirectory)];
    events := [Sql(ShowDataDirectory)];
    var dataDir := st.env.dataDirectory;
    var l := st.GetLabel();
    r := CopyDataDirectory(st, dataDir, backupPath, backupOpts, l);
    if !Truthy(st.rsyncOpts) {
      events := events + [Run(BackupArgv(["rsync"], backupOpts, dataDir, backupPath, l))];
    }
  }

  /** The rsync of perform_backup into backup_path/lbl: rsync_cmd, the assembled command
      line, and check_call, where only a CalledProcessError with status 24 is swallowed. */
  method CopyDataDirectory(st: State, dataDir: string, backupPath: string, backupOpts: seq<string>, lbl: string)
    returns (r: Result<(), Error>)
    modifies st
    ensures st.runLabel == old(st.runLabel) && st.rsyncOpts == old(st.rsyncOpts)
    ensures Truthy(st.rsyncOpts) ==> r == Failure(NameError) && st.log == old(st.log)
    ensures !Truthy(st.rsyncOpts) ==>
      var argv := BackupArgv(["rsync"], backupOpts, dataDir, backupPath, lbl);
      st.log == old(st.log) + [Run(argv)] && r == BackupCallResult(argv, st.env.outcome(|old(st.log)|))
  {
    var rsyncDataDir := RStrip(dataDir, '/') + "/";
    var rsyncBackupPath := Join(backupPath, lbl);
    var base := RsyncCmd(st.rsyncOpts);
    if base.Failure? {
      r := Failure(base.error);
    } else {
      var cmd := base.value + backupOpts;
      cmd := cmd + ["--delete", "--delete-delay"];
      cmd := ExtendFlagged(cmd, "--exclude", RsyncExcludes);
      cmd := cmd + [rsyncDataDir, rsyncBackupPath];
      assert cmd == BackupArgv(["rsync"], backupOpts, dataDir, backupPath, lbl);
      var called := Call(st, cmd);
      if called.Failure? && !(called.error.CalledProcessError? && called.error.status == 24) {
        r := called;
      } else {
        r := Success(());
      }
    }
  }

  /** What write_backup_file does once rsync_cmd has given base: stage the contents in the
      temporary file, copy it to backup_path/label/name, and discard it whatever the copy's
      outcome. */
  function WriteEvents(env: Environment, base: seq<string>, backupPath: string, lbl: string, contents: string, name: string): seq<Event>
  {
    [StageTemp(env.tempFile, contents), Run(WriteArgv(base, env.tempFile, backupPath, lbl, name)), DiscardTemp(env.tempFile)]
  }

  /** write_backup_file */
  method WriteBackupFile(st: State, backupPath: string, contents: string, name: string) returns (r: Result<(), Error>, ghost events: seq<Event>)
    requires st.Valid()
    modifies st
    ensures st.Valid() && st.Kept() && st.runLabel.Some?
    ensures old(st.runLabel).None? ==> st.runLabel.value == Format(st.env.clock(|old(st.log)|))
    ensures st.log == old(st.log) + events && BackupEvents(events)
    ensures Truthy(st.rsyncOpts) ==> r == Failure(NameError) && events == []
    ensures !Truthy(st.rsyncOpts) ==>
      && events == WriteEvents(st.env, ["rsync"], backupPath, st.runLabel.value, contents, name)
      && r == CheckCall(WriteArgv(["rsync"], st.env.tempFile, backupPath, st.runLabel.value, name), st.env.outcome(|old(st.log)| + 1))
  {
    events := [];
    var l := st.GetLabel();
    var filePath := Join(Join(backupPath, l), name);
    var base := RsyncCmd(st.rsyncOpts);
    if base.Failure? {
      return Failure(base.error), events;
    }
    var temp := st.env.tempFile;
    st.log := st.log + [StageTemp(temp, contents)];
    ghost var staged := st.log;
    var cmd := base.value + [temp, filePath];
    assert cmd == WriteArgv(["rsync"], temp, backupPath, l, name);
    r := Call(st, cmd);
    assert st.log == staged + [Run(cmd)];
    st.log := st.log + [DiscardTemp(temp)];
    events := [StageTemp(temp, contents), Run(cmd), DiscardTemp(temp)];
    assert st.log == old(st.log) + events;
  }

  /** What finalize_backup does from log position at under label lbl when rsync_cmd works:
      pg_stop_backup, the backup_label file, and the tablespace_map file only when the first
      write succeeded and the row holds a non-empty map; the result is the last write's. */
  function FinalizeRun(env: Environment, backupPath: string, lbl: string, at: nat): Part<()>
  {
    var row := env.stopRow;
    var labelFile := WriteEvents(env, ["rsync"], backupPath, lbl, row.labelFile, "backup_label");
    var written := CheckCall(labelFile[1].argv, env.outcome(at + 2));
    if written.Failure? || !Truthy(row.tablespaceMap) then Part([Sql(StopBackup)] + labelFile, written)
    else
      var mapFile := WriteEvents(env, ["rsync"], backupPath, lbl, row.tablespaceMap.value, "tablespace_map");
      Part([Sql(StopBackup)] + labelFile + mapFile, CheckCall(mapFile[1].argv, env.outcome(at + 5)))
  }

  /** finalize_backup: pg_stop_backup, then the backup_label file and, when the row has a
      non-empty one, the tablespace_map file, both written under backup_path/label. */
  method FinalizeBackup(st: State, backupPath: string) returns (r: Result<(), Error>, ghost events: seq<Event>)
    requires st.Valid()
    modifies st
    ensures st.Valid() && st.Kept() && st.runLabel.Some?
    ensures old(st.runLabel).None? ==> st.runLabel.value == Format(st.env.clock(|old(st.log)| + 1))
    ensures st.log == old(st.log) + events && BackupEvents(events)
    ensures Truthy(st.rsyncOpts) ==> r == Failure(NameError) && events == [Sql(StopBackup)]
    ensures !Truthy(st.rsyncOpts) ==> Part(events, r) == FinalizeRun(st.env, backupPath, st.runLabel.value, |old(st.log)|)
  {
    st.log := st.log + [Sql(StopBackup)];
    var row := st.env.stopRow;
    ghost var written;
    r, written := WriteBackupFile(st, backupPath, row.labelFile, "backup_label");
    Regroup(old(st.log), [Sql(StopBackup)], written, []);
    BackupAppend([Sql(StopBackup)], written);
    events := [Sql(StopBackup)] + written;
    if r.Success? && Truthy(row.tablespaceMap) {
      ghost var mapped;
      r, mapped := WriteBackupFile(st, backupPath, row.tablespaceMap.value, "tablespace_map");
      Regroup(old(st.log), events, mapped, []);
      BackupAppend(events, mapped);
      events := events + mapped;
    }
  }

  /** What get_current_labels reads from the listing command's outcome: the listed labels in
      listing order, or the first error. */
  function ReadListing(argv: seq<string>, o: Outcome): Result<seq<Label>, Error>
  {
    match CheckOutput(argv, o)
    case Failure(e) => Failure(e)
    case Success(out) => Entries(SplitLines(out))
  }

  /** What get_current_labels returns for the listing command's outcome: the listed labels
      insorted in chronological order (Labels.Before, the order Label's operators are meant
      to give; see Retention for what the operators as written do), as strings, or the
      first error. */
  function CurrentLabels(argv: seq<string>, o: Outcome): Result<seq<string>, Error>
  {
    match ReadListing(argv, o)
    case Failure(e) => Failure(e)
    case Success(listed) => Success(Texts(InsortAll(listed, Before)))
  }

  /** get_current_labels returns the strings of a permutation of the listed labels, in
      chronological order; a listing already in that order comes back as listed. */
  lemma CurrentLabelsAreListed(argv: seq<string>, o: Outcome)
    requires ReadListing(argv, o).Success?
    ensures var listed := ReadListing(argv, o).value;
      var sorted := InsortAll(listed, Before);
      && CurrentLabels(argv, o) == Success(Texts(sorted))
      && multiset(sorted) == multiset(listed)
      && multiset(CurrentLabels(argv, o).value) == multiset(Texts(listed))
      && (forall i, j :: 0 <= i < j < |sorted| ==>
            sorted[i].date < sorted[j].date || (sorted[i].date == sorted[j].date && sorted[i].time <= sorted[j].time))
      && (InOrder(Before, listed) ==> CurrentLabels(argv, o).value == Texts(listed))
  {
    var listed := ReadListing(argv, o).value;
    var sorted := InsortAll(listed, Before);
    InsortAllPermutes(listed, Before);
    TextsPermutes(sorted, listed);
    BeforeOrder(listed);
    InsortAllSorts(listed, Before);
    BeforeOrder(sorted);
    if InOrder(Before, listed) {
      InsortAllKeepsOrdered(listed, Before);
    }
  }

  /** The label cleanup_wal_archive takes as the oldest, `labels[0]`, is that of a listed
      backup no other listed backup is older than. */
  lemma FirstIsOldest(argv: seq<string>, o: Outcome)
    requires ReadListing(argv, o).Success? && ReadListing(argv, o).value != []
    ensures var listed := ReadListing(argv, o).value;
      var sorted := InsortAll(listed, Before);
      && CurrentLabels(argv, o).value[0] == sorted[0].text
      && sorted[0] in listed
      && forall j :: 0 <= j < |listed| ==> !Before(listed[j], sorted[0])
  {
    var listed := ReadListing(argv, o).value;
    var sorted := InsortAll(listed, Before);
    CurrentLabelsAreListed(argv, o);
    TextsEach(sorted);
    assert sorted[0] in multiset(listed);
    forall j | 0 <= j < |listed|
      ensures !Before(listed[j], sorted[0])
    {
      assert listed[j] in multiset(sorted);
      var k :| 0 <= k < |sorted| && sorted[k] == listed[j];
    }
  }

  /** On a listing in chronological order, which is the order rsync lists the names in,
      get_current_labels as written, insorting with Label's `<`, returns what the model
      returns. */
  lemma AsWrittenAgreesOnSortedListing(argv: seq<string>, o: Outcome)
    requires ReadListing(argv, o).Success? && InOrder(Before, ReadListing(argv, o).value)
    ensures CurrentLabels(argv, o) == Success(Texts(InsortAll(ReadListing(argv, o).value, Lt)))
  {
    OrdersAgreeOnChronologicalListing(ReadListing(argv, o).value);
  }

  /** get_current_labels: list backup_path, gather the listing's labels with insort in
      chronological order, and return their strings. */
  method GetCurrentLabels(st: State, backupPath: string) returns (r: Result<seq<string>, Error>)
    modifies st
    ensures st.runLabel == old(st.runLabel) && st.rsyncOpts == old(st.rsyncOpts)
    ensures Truthy(st.rsyncOpts) ==> r == Failure(NameError) && st.log == old(st.log)
    ensures !Truthy(st.rsyncOpts) ==>
      var argv := ListArgv(["rsync"], backupPath);
      && st.log == old(st.log) + [Run(argv)]
      && r == CurrentLabels(argv, st.env.outcome(|old(st.log)|))
  {
    var base := RsyncCmd(st.rsyncOpts);
    if base.Failure? {
      return Failure(base.error);
    }
    var cmd := base.value + ["--list-only", RStrip(backupPath, '/') + "/"];
    var o := st.env.outcome(|st.log|);
    var out := CheckOutput(cmd, o);
    var called := Call(st, cmd);
    if out.Failure? {
      return Failure(out.error);
    }
    var collected := Collect(SplitLines(out.value), Before);
    if collected.Failure? {
      return Failure(collected.error);
    }
    r := Success(Texts(collected.value));
  }

  /** Every command of plan before index i succeeds when they run from log position at on. */
  ghost predicate SucceedUpTo(plan: seq<seq<string>>, outcome: nat -> Outcome, at: nat, i: nat)
    requires i <= |plan|
    decreases i
  {
    i == 0 || (SucceedUpTo(plan, outcome, at, i - 1) && CheckCall(plan[i - 1], outcome(at + i - 1)).Success?)
  }

  lemma {:induction false} SucceedUpToEach(plan: seq<seq<string>>, outcome: nat -> Outcome, at: nat, i: nat)
    requires i <= |plan|
    ensures SucceedUpTo(plan, outcome, at, i) <==> forall k :: 0 <= k < i ==> CheckCall(plan[k], outcome(at + k)).Success?
    decreases i
  {
    if i > 0 {
      SucceedUpToEach(plan, outcome, at, i - 1);
    }
  }

  /** The index of the first command of plan that fails when they run from log position at
      on, or |plan| when none does. */
  function FirstFailure(plan: seq<seq<string>>, outcome: nat -> Outcome, at: nat): (i: nat)
    ensures i <= |plan|
    decreases |plan|
  {
    if plan == [] || CheckCall(plan[0], outcome(at)).Failure? then 0
    else 1 + FirstFailure(plan[1..], outcome, at + 1)
  }

  /** FirstFailure finds the first failing command: all before it succeed, and it fails. */
  lemma {:induction false} FirstFailureIsFirst(plan: seq<seq<string>>, outcome: nat -> Outcome, at: nat)
    ensures var i := FirstFailure(plan, outcome, at);
      && (forall k :: 0 <= k < i ==> CheckCall(plan[k], outcome(at + k)).Success?)
      && (i < |plan| ==> CheckCall(plan[i], outcome(at + i)).Failure?)
    decreases |plan|
  {
    if plan != [] && CheckCall(plan[0], outcome(at)).Success? {
      var i := FirstFailure(plan[1..], outcome, at + 1);
      FirstFailureIsFirst(plan[1..], outcome, at + 1);
      forall k | 1 <= k < i + 1
        ensures CheckCall(plan[k], outcome(at + k)).Success?
      {
        assert plan[k] == plan[1..][k - 1] && at + k == (at + 1) + (k - 1);
      }
    }
  }

  /** The first failure is at i when every command before i succeeds and the one at i (if
      any) fails. */
  lemma FirstFailureAt(plan: seq<seq<string>>, outcome: nat -> Outcome, at: nat, i: nat)
    requires i <= |plan| && SucceedUpTo(plan, outcome, at, i)
    requires i < |plan| ==> CheckCall(plan[i], outcome(at + i)).Failure?
    ensures FirstFailure(plan, outcome, at) == i
  {
    SucceedUpToEach(plan, outcome, at, i);
    FirstFailureIsFirst(plan, outcome, at);
  }

  /** How many commands of plan run when each failure stops the rest: up to and including
      the first that fails. */
  function Issued(plan: seq<seq<string>>, outcome: nat -> Outcome, at: nat): (n: nat)
    ensures n <= |plan|
  {
    var i := FirstFailure(plan, outcome, at);
    if i < |plan| then i + 1 else |plan|
  }

  /** The result of running plan that way: the first failure's error, or success. */
  function PlanResult(plan: seq<seq<string>>, outcome: nat -> Outcome, at: nat): Result<(), Error>
  {
    var i := FirstFailure(plan, outcome, at);
    if i < |plan| then CheckCall(plan[i], outcome(at + i)) else Success(())
  }

  /** Running a non-empty plan issues a prefix of it that stops right after the first
      failure, and fails exactly when some command of the plan would. */
  lemma PlanStopsAtFirstFailure(plan: seq<seq<string>>, outcome: nat -> Outcome, at: nat)
    requires plan != []
    ensures var n := Issued(plan, outcome, at);
      && 1 <= n <= |plan|
      && (forall k :: 0 <= k < n - 1 ==> CheckCall(plan[k], outcome(at + k)).Success?)
      && (n < |plan| ==> CheckCall(plan[n - 1], outcome(at + n - 1)).Failure?)
      && (PlanResult(plan, outcome, at).Success? <==> forall k :: 0 <= k < |plan| ==> CheckCall(plan[k], outcome(at + k)).Success?)
      && (PlanResult(plan, outcome, at).Failure? ==> PlanResult(plan, outcome, at) == CheckCall(plan[n - 1], outcome(at + n - 1)))
  {
    FirstFailureIsFirst(plan, outcome, at);
  }

  /** The events of commands run one after the other. */
  function Runs(cmds: seq<seq<string>>): (events: seq<Event>)
    ensures |events| == |cmds|
  {
    if cmds == [] then [] else Runs(cmds[..|cmds| - 1]) + [Run(cmds[|cmds| - 1])]
  }

  /** Event i of Runs(cmds) runs command i. */
  lemma {:induction false} RunsEach(cmds: seq<seq<string>>)
    ensures forall i :: 0 <= i < |cmds| ==> Runs(cmds)[i] == Run(cmds[i])
  {
    if cmds != [] {
      var init := cmds[..|cmds| - 1];
      RunsEach(init);
      forall i | 0 <= i < |cmds| - 1
        ensures Runs(cmds)[i] == Run(cmds[i])
      {
        assert Runs(cmds)[i] == Runs(init)[i] && init[i] == cmds[i];
      }
    }
  }

  lemma RunsSnoc(cmds: seq<seq<string>>, i: nat)
    requires i < |cmds|
    ensures Runs(cmds[..i + 1]) == Runs(cmds[..i]) + [Run(cmds[i])]
  {
    assert cmds[..i + 1][..i] == cmds[..i];
  }

  /** Regrouping the events appended to a log. */
  lemma Regroup(log: seq<Event>, a: seq<Event>, b: seq<Event>, c: seq<Event>)
    ensures log + a + b == log + (a + b)
    ensures log + a + b + c == log + (a + b + c)
  {
  }

  lemma BackupAppend(a: seq<Event>, b: seq<Event>)
    requires BackupEvents(a) && BackupEvents(b)
    ensures BackupEvents(a + b)
  {
    forall i | |a| <= i < |a + b|
      ensures (a + b)[i] == b[i - |a|]
    {
    }
  }

  lemma ArchiveAppend(a: seq<Event>, b: seq<Event>)
    requires ArchiveEvents(a) && ArchiveEvents(b)
    ensures ArchiveEvents(a + b)
  {
    forall i | |a| <= i < |a + b|
      ensures (a + b)[i] == b[i - |a|]
    {
    }
  }

  lemma RetentionAppend(a: seq<Event>, b: seq<Event>)
    requires RetentionEvents(a) && RetentionEvents(b)
    ensures RetentionEvents(a + b)
  {
    forall i | |a| <= i < |a + b|
      ensures (a + b)[i] == b[i - |a|]
    {
    }
  }

  /** The events rsync_delete_dirs causes are of the retention kind. */
  lemma ScratchRunsAreRetention(s: string, cmds: seq<seq<string>>)
    ensures RetentionEvents([MakeScratch(s)] + Runs(cmds) + [RemoveScratch(s)])
  {
    var events := [MakeScratch(s)] + Runs(cmds) + [RemoveScratch(s)];
    RunsEach(cmds);
    forall i | 0 <= i < |events|
      ensures events[i].Run? || events[i].MakeScratch? || events[i].RemoveScratch?
    {
      if 0 < i <= |cmds| {
        assert events[i] == Runs(cmds)[i - 1];
      }
    }
  }

  /** What rsync_delete_dirs does with scratch directory s and its commands plan when it
      starts at log position at and rsync_cmd works: make the scratch directory, run the plan
      up to its first failure, remove the scratch directory. */
  function DeleteEvents(s: string, plan: seq<seq<string>>, outcome: nat -> Outcome, at: nat): seq<Event>
  {
    [MakeScratch(s)] + Runs(plan[..Issued(plan, outcome, at + 1)]) + [RemoveScratch(s)]
  }

  /** When the first failure of plan from log position at is at i (|plan| when none fails),
      the commands up to and including i are issued, and i's result is the plan's. */
  lemma IssuedUpTo(plan: seq<seq<string>>, outcome: nat -> Outcome, at: nat, i: nat)
    requires i <= |plan| && SucceedUpTo(plan, outcome, at, i)
    requires i < |plan| ==> CheckCall(plan[i], outcome(at + i)).Failure?
    ensures Issued(plan, outcome, at) == if i < |plan| then i + 1 else |plan|
    ensures PlanResult(plan, outcome, at) == if i < |plan| then CheckCall(plan[i], outcome(at + i)) else Success(())
  {
    FirstFailureAt(plan, outcome, at, i);
  }

  /** One pass of rsync_delete_dirs' loop: rsync_cmd, then check_call of the command that
      empties backup_path/lbl. */
  method DrainStep(st: State, tempName: string, backupPath: string, lbl: string) returns (r: Result<(), Error>)
    modifies st
    ensures st.runLabel == old(st.runLabel) && st.rsyncOpts == old(st.rsyncOpts)
    ensures Truthy(st.rsyncOpts) ==> r == Failure(NameError) && st.log == old(st.log)
    ensures !Truthy(st.rsyncOpts) ==>
      var argv := DrainArgv(["rsync"], tempName, backupPath, lbl);
      st.log == old(st.log) + [Run(argv)] && r == CheckCall(argv, st.env.outcome(|old(st.log)|))
  {
    var base := RsyncCmd(st.rsyncOpts);
    if base.Failure? {
      r := Failure(base.error);
    } else {
      var cmd := base.value + ["-r", "--delete", tempName + "/", Join(backupPath, lbl)];
      r := Call(st, cmd);
    }
  }

  /** The command after rsync_delete_dirs' loop: rsync_cmd, then check_call of the command
      that removes the emptied directories of labels. */
  method CollapseStep(st: State, tempName: string, backupPath: string, labels: seq<string>) returns (r: Result<(), Error>)
    modifies st
    ensures st.runLabel == old(st.runLabel) && st.rsyncOpts == old(st.rsyncOpts)
    ensures Truthy(st.rsyncOpts) ==> r == Failure(NameError) && st.log == old(st.log)
    ensures !Truthy(st.rsyncOpts) ==>
      var argv := CollapseArgv(["rsync"], tempName, backupPath, labels);
      st.log == old(st.log) + [Run(argv)] && r == CheckCall(argv, st.env.outcome(|old(st.log)|))
  {
    var base := RsyncCmd(st.rsyncOpts);
    if base.Failure? {
      r := Failure(base.error);
    } else {
      var cmd := ExtendFlagged(base.value, "--include", labels);
      cmd := cmd + ["--exclude", "*", "-d", "--delete"];
      cmd := cmd + [tempName + "/", backupPath];
      assert cmd == CollapseArgv(["rsync"], tempName, backupPath, labels);
      r := Call(st, cmd);
    }
  }

  /** When the commands of plan up to `last` were issued, all before it succeeded, and
      `last` either failed or was the plan's final command, exactly those were issued and
      last's result is the plan's. */
  lemma StoppedAt(plan: seq<seq<string>>, outcome: nat -> Outcome, at: nat, last: nat, r: Result<(), Error>)
    requires last < |plan| && SucceedUpTo(plan, outcome, at, last)
    requires r == CheckCall(plan[last], outcome(at + last)) && (r.Success? ==> last + 1 == |plan|)
    ensures Issued(plan, outcome, at) == last + 1 && PlanResult(plan, outcome, at) == r
  {
    if r.Failure? {
      IssuedUpTo(plan, outcome, at, last);
    } else {
      assert SucceedUpTo(plan, outcome, at, |plan|);
      IssuedUpTo(plan, outcome, at, |plan|);
    }
  }

  /** The `try` block of rsync_delete_dirs with scratch directory tempName: drain each label's
      directory, then remove them all at once; the first failure stops the rest. */
  method DeleteInScratch(st: State, tempName: string, backupPath: string, labels: seq<string>)
    returns (r: Result<(), Error>, ghost last: nat)
    modifies st
    ensures st.runLabel == old(st.runLabel) && st.rsyncOpts == old(st.rsyncOpts)
    ensures Truthy(st.rsyncOpts) ==> r == Failure(NameError) && st.log == old(st.log)
    ensures !Truthy(st.rsyncOpts) ==>
      var plan := DeletePlan(["rsync"], tempName, backupPath, labels);
      var at := |old(st.log)|;
      && last < |plan| && SucceedUpTo(plan, st.env.outcome, at, last)
      && r == CheckCall(plan[last], st.env.outcome(at + last))
      && (r.Success? ==> last == |labels|)
      && st.log == old(st.log) + Runs(plan[..last + 1])
  {
    ghost var at := |st.log|;
    ghost var plan := DeletePlan(["rsync"], tempName, backupPath, labels);
    DeletePlanSteps(["rsync"], tempName, backupPath, labels);
    for i := 0 to |labels|
      invariant st.runLabel == old(st.runLabel) && st.rsyncOpts == old(st.rsyncOpts)
      invariant i > 0 ==> !Truthy(st.rsyncOpts)
      invariant st.log == old(st.log) + Runs(plan[..i])
      invariant SucceedUpTo(plan, st.env.outcome, at, i)
    {
      assert |st.log| == at + i;
      r := DrainStep(st, tempName, backupPath, labels[i]);
      RunsSnoc(plan, i);
      Regroup(old(st.log), Runs(plan[..i]), [Run(plan[i])], []);
      if r.Failure? {
        last := i;
        return;
      }
    }
    assert |st.log| == at + |labels|;
    r := CollapseStep(st, tempName, backupPath, labels);
    RunsSnoc(plan, |labels|);
    Regroup(old(st.log), Runs(plan[..|labels|]), [Run(plan[|labels|])], []);
    last := |labels|;
  }

  /** rsync_delete_dirs: in a fresh scratch directory's name, drain each label's directory and
      then remove them all at once; any failure stops the rest, and the scratch directory is
      removed however the commands end. */
  method DeleteDirs(st: State, backupPath: string, labels: seq<string>) returns (r: Result<(), Error>, ghost events: seq<Event>)
    modifies st
    ensures st.runLabel == old(st.runLabel) && st.rsyncOpts == old(st.rsyncOpts)
    ensures st.log == old(st.log) + events && RetentionEvents(events)
    ensures Truthy(st.rsyncOpts) ==>
      r == Failure(NameError) && events == [MakeScratch(st.env.scratchDir), RemoveScratch(st.env.scratchDir)]
    ensures !Truthy(st.rsyncOpts) ==>
      var plan := DeletePlan(["rsync"], st.env.scratchDir, backupPath, labels);
      && events == DeleteEvents(st.env.scratchDir, plan, st.env.outcome, |old(st.log)|)
      && r == PlanResult(plan, st.env.outcome, |old(st.log)| + 1)
  {
    ghost var at := |st.log|;
    var tempName := st.env.scratchDir;
    st.log := st.log + [MakeScratch(tempName)];
    ghost var last;
    r, last := DeleteInScratch(st, tempName, backupPath, labels);
    st.log := st.log + [RemoveScratch(tempName)];
    if Truthy(st.rsyncOpts) {
      events := [MakeScratch(tempName), RemoveScratch(tempName)];
    } else {
      ghost var plan := DeletePlan(["rsync"], tempName, backupPath, labels);
      StoppedAt(plan, st.env.outcome, at + 1, last, r);
      ghost var issued := plan[..Issued(plan, st.env.outcome, at + 1)];
      events := [MakeScratch(tempName)] + Runs(issued) + [RemoveScratch(tempName)];
      Regroup(old(st.log), [MakeScratch(tempName)], Runs(issued), [RemoveScratch(tempName)]);
      ScratchRunsAreRetention(tempName, issued);
    }
  }

  /** What cleanup_old_backups does from log position at with connect options opts: list the
      backups and, when more than keep are listed, delete the first `len(labels) - keep` of
      them in get_current_labels' order; with options set, rsync_cmd raises at once. */
  function RetentionRun(env: Environment, opts: Option<string>, backupPath: string, keep: int, at: nat): Part<()>
  {
    if Truthy(opts) then Part([], Failure(NameError))
    else
      var argv := ListArgv(["rsync"], backupPath);
      var listed := CurrentLabels(argv, env.outcome(at));
      if listed.Failure? then Part([Run(argv)], Failure(listed.error))
      else if |listed.value| <= keep then Part([Run(argv)], Success(()))
      else
        var plan := DeletePlan(["rsync"], env.scratchDir, backupPath, SelectForRemoval(listed.value, keep));
        Part([Run(argv)] + DeleteEvents(env.scratchDir, plan, env.outcome, at + 1), PlanResult(plan, env.outcome, at + 2))
  }

  /** cleanup_old_backups: with more backups listed than keep, the first
      `len(labels) - keep` of them, in get_current_labels' order, are deleted. */
  method CleanupOldBackups(st: State, backupPath: string, keep: int) returns (r: Result<(), Error>, ghost events: seq<Event>)
    modifies st
    ensures st.runLabel == old(st.runLabel) && st.rsyncOpts == old(st.rsyncOpts)
    ensures st.log == old(st.log) + events && RetentionEvents(events)
    ensures Part(events, r) == RetentionRun(st.env, st.rsyncOpts, backupPath, keep, |old(st.log)|)
  {
    events := [];
    var labels := GetCurrentLabels(st, backupPath);
    if labels.Failure? {
      if !Truthy(st.rsyncOpts) {
        events := [Run(ListArgv(["rsync"], backupPath))];
      }
      return Failure(labels.error), events;
    }
    events := [Run(ListArgv(["rsync"], backupPath))];
    if |labels.value| > keep {
      ghost var deleted;
      assert |st.log| == |old(st.log)| + 1;
      r, deleted := DeleteDirs(st, backupPath, SelectForRemoval(labels.value, keep));
      assert r == PlanResult(DeletePlan(["rsync"], st.env.scratchDir, backupPath, SelectForRemoval(labels.value, keep)), st.env.outcome, |old(st.log)| + 2);
      Regroup(old(st.log), events, deleted, []);
      RetentionAppend(events, deleted);
      events := events + deleted;
    } else {
      r := Success(());
    }
  }

  /** The backups cleanup_old_backups removes from a listing are its oldest: the strings of
      the first labels in chronological order, none of them newer than a backup kept. */
  lemma OldestAreRemoved(argv: seq<string>, o: Outcome, keep: int)
    requires ReadListing(argv, o).Success?
    ensures var sorted := InsortAll(ReadListing(argv, o).value, Before);
      var removed := SelectForRemoval(CurrentLabels(argv, o).value, keep);
      && |removed| <= |sorted| && removed == Texts(sorted[..|removed|])
      && forall i, j :: 0 <= i < |removed| <= j < |sorted| ==> !Before(sorted[j], sorted[i])
  {
    var listed := ReadListing(argv, o).value;
    var sorted := InsortAll(listed, Before);
    CurrentLabelsAreListed(argv, o);
    BeforeOrder(sorted);
    RemovesOldest(sorted, keep);
    var removed := SelectForRemoval(Texts(sorted), keep);
    assert |SelectForRemoval(sorted, keep)| == |removed|;
    TextsEach(sorted);
    TextsEach(sorted[..|removed|]);
  }

  /** How cleanup_wal_archive returns when nothing raises: no backups listed, the oldest
      backup's backup_label unreadable, no segment found in it, or the archive cleaned up to
      `segment`. */
  datatype WalCleanup = NoBackups | LabelUnreadable | NoSegment | Cleaned(segment: string)

  /** What cleanup_wal_archive does from log position at once the oldest backup is known:
      read its backup_label file and stop without a command when it cannot be read or names
      no segment; otherwise run pg_archivecleanup up to that segment. */
  function FromOldestRun(env: Environment, backupPath: string, pgBinDir: Option<string>, oldest: string, at: nat): Part<WalCleanup>
  {
    var path := Join(Join(backupPath, oldest), "backup_label");
    if path !in env.files then Part([ReadFile(path)], Success(LabelUnreadable))
    else
      var seg := ExtractLastSegment(env.files[path]);
      if !Truthy(seg) then Part([ReadFile(path)], Success(NoSegment))
      else
        var cleanup := CleanupArgv(pgBinDir, backupPath, seg.value);
        var called := CheckCall(cleanup, env.outcome(at + 1));
        Part([ReadFile(path), Run(cleanup)], if called.Success? then Success(Cleaned(seg.value)) else Failure(called.error))
  }

  /** What cleanup_wal_archive does from log position at with connect options opts: fail the
      assertion on a remote path; otherwise list the backups, stop without a command when
      none is listed, and go on from the first one listed. */
  function ArchiveRun(env: Environment, opts: Option<string>, backupPath: string, pgBinDir: Option<string>, at: nat): Part<WalCleanup>
  {
    if ':' in backupPath then Part([], Failure(AssertionError))
    else if Truthy(opts) then Part([], Failure(NameError))
    else
      var argv := ListArgv(["rsync"], backupPath);
      var listed := CurrentLabels(argv, env.outcome(at));
      if listed.Failure? then Part([Run(argv)], Failure(listed.error))
      else if listed.value == [] then Part([Run(argv)], Success(NoBackups))
      else
        var rest := FromOldestRun(env, backupPath, pgBinDir, listed.value[0], at + 1);
        Part([Run(argv)] + rest.events, rest.result)
  }

  /** cleanup_wal_archive: read the last WAL segment from the backup_label file of the first
      backup listed, and have pg_archivecleanup remove every older segment from the archive. */
  method CleanupWalArchive(st: State, backupPath: string, pgBinDir: Option<string>)
    returns (r: Result<WalCleanup, Error>, ghost events: seq<Event>)
    modifies st
    ensures st.runLabel == old(st.runLabel) && st.rsyncOpts == old(st.rsyncOpts)
    ensures st.log == old(st.log) + events && ArchiveEvents(events)
    ensures Part(events, r) == ArchiveRun(st.env, st.rsyncOpts, backupPath, pgBinDir, |old(st.log)|)
  {
    events := [];
    if ':' in backupPath {
      r := Failure(AssertionError);
    } else {
      var labels := GetCurrentLabels(st, backupPath);
      if labels.Failure? {
        if !Truthy(st.rsyncOpts) {
          events := [Run(ListArgv(["rsync"], backupPath))];
        }
        r := Failure(labels.error);
        assert st.log == old(st.log) + events;
      } else if labels.value == [] {
        events := [Run(ListArgv(["rsync"], backupPath))];
        r := Success(NoBackups);
        assert st.log == old(st.log) + events;
      } else {
        ghost var tail;
        assert |st.log| == |old(st.log)| + 1;
        r, tail := CleanupFromOldest(st, backupPath, pgBinDir, labels.value[0]);
        events := [Run(ListArgv(["rsync"], backupPath))] + tail;
        Regroup(old(st.log), [Run(ListArgv(["rsync"], backupPath))], tail, []);
      }
    }
  }

  /** cleanup_wal_archive once the oldest backup is known: read its backup_label file, take
      the last WAL segment named there, and run pg_archivecleanup up to it. */
  method CleanupFromOldest(st: State, backupPath: string, pgBinDir: Option<string>, oldest: string)
    returns (r: Result<WalCleanup, Error>, ghost events: seq<Event>)
    modifies st
    ensures st.runLabel == old(st.runLabel) && st.rsyncOpts == old(st.rsyncOpts)
    ensures st.log == old(st.log) + events && ArchiveEvents(events)
    ensures Part(events, r) == FromOldestRun(st.env, backupPath, pgBinDir, oldest, |old(st.log)|)
  {
    var backupLabelPath := Join(Join(backupPath, oldest), "backup_label");
    var backupLabel := ReadBackupLabel(st, backupLabelPath);
    events := [ReadFile(backupLabelPath)];
    if backupLabel.None? {
      r := Success(LabelUnreadable);
    } else {
      var lastSegment := ExtractLastSegment(backupLabel.value);
      if !Truthy(lastSegment) {
        r := Success(NoSegment);
      } else {
        r := CleanupArchiveTo(st, backupPath, pgBinDir, lastSegment.value);
        Regroup(old(st.log), events, [Run(CleanupArgv(pgBinDir, backupPath, lastSegment.value))], []);
        events := events + [Run(CleanupArgv(pgBinDir, backupPath, lastSegment.value))];
      }
    }
  }

  /** The `open(backup_label_path).read()` of cleanup_wal_archive, whose bare `except` turns
      any failure into None: the file's contents when it can be read. */
  method ReadBackupLabel(st: State, path: string) returns (contents: Option<string>)
    modifies st
    ensures st.runLabel == old(st.runLabel) && st.rsyncOpts == old(st.rsyncOpts)
    ensures st.log == old(st.log) + [ReadFile(path)]
    ensures contents == if path in st.env.files then Some(st.env.files[path]) else None
  {
    st.log := st.log + [ReadFile(path)];
    if path in st.env.files {
      contents := Some(st.env.files[path]);
    } else {
      contents := None;
    }
  }

  /** The last step of cleanup_wal_archive: pg_archivecleanup, from pg_bin_dir when one is
      given, removes the archived segments older than `segment`. */
  method CleanupArchiveTo(st: State, backupPath: string, pgBinDir: Option<string>, segment: string)
    returns (r: Result<WalCleanup, Error>)
    modifies st
    ensures st.runLabel == old(st.runLabel) && st.rsyncOpts == old(st.rsyncOpts)
    ensures st.log == old(st.log) + [Run(CleanupArgv(pgBinDir, backupPath, segment))]
    ensures var called := CheckCall(CleanupArgv(pgBinDir, backupPath, segment), st.env.outcome(|old(st.log)|));
      r == if called.Success? then Success(Cleaned(segment)) else Failure(called.error)
  {
    var walArchivePath := Join(backupPath, "wal_archive");
    var cmd: seq<string>;
    if Truthy(pgBinDir) {
      cmd := [Join(pgBinDir.value, "pg_archivecleanup")];
    } else {
      cmd := ["pg_archivecleanup"];
    }
    cmd := cmd + ["-d", walArchivePath, segment];
    var called := Call(st, cmd);
    if called.Failure? {
      r := Failure(called.error);
    } else {
      r := Success(Cleaned(segment));
    }
  }

  /** The command line once argparse has applied its defaults; the option strings are taken
      as already split into words. */
  datatype Args = Args(
    backup: bool,
    keep: int,
    cleanArchive: bool,
    connectOpts: Option<string>,
    backupOpts: seq<string>,
    pgBinDir: Option<string>,
    backupPath: string)

  /** The check parse_args adds to argparse's: the WAL archive can only be cleaned in a local
      backup directory, and a path with ':' is taken for a remote one. */
  function CheckArgs(args: Args): (r: Result<Args, Error>)
    ensures r.Failure? <==> args.cleanArchive && ':' in args.backupPath
    ensures r.Failure? ==> r.error == UsageError
    ensures r.Success? ==> r.value == args
  {
    if args.cleanArchive && ':' in args.backupPath then Failure(UsageError) else Success(args)
  }

  /** In a run made of a backup part, then a retention part, then an archive part, every
      database statement comes before any scratch directory or file read, and every scratch
      directory before any file read. */
  lemma {:induction false} PartsInOrder(b: seq<Event>, k: seq<Event>, w: seq<Event>)
    requires BackupEvents(b) && RetentionEvents(k) && ArchiveEvents(w)
    ensures var events := b + k + w;
      && (forall i, j :: 0 <= i < |events| && 0 <= j < |events| && events[i].Sql? && (events[j].MakeScratch? || events[j].ReadFile?) ==> i < j)
      && (forall i, j :: 0 <= i < |events| && 0 <= j < |events| && events[i].MakeScratch? && events[j].ReadFile? ==> i < j)
  {
    var events := b + k + w;
    forall i | 0 <= i < |events|
      ensures events[i].Sql? ==> i < |b|
      ensures events[i].MakeScratch? ==> |b| <= i < |b| + |k|
      ensures events[i].ReadFile? ==> |b| + |k| <= i
    {
      if i < |b| {
        assert events[i] == b[i];
      } else if i < |b| + |k| {
        assert events[i] == k[i - |b|];
      } else {
        assert events[i] == w[i - |b| - |k|];
      }
    }
  }

  /** The run's label when initiate_backup is reached at log position at: the memoized one,
      or else the clock's reading at that moment. */
  function RunLabel(env: Environment, label0: Option<string>, at: nat): string
  {
    if label0.Some? then label0.value else Format(env.clock(at))
  }

  /** What perform_backup and then, when the copy returned, finalize_backup do from log
      position at, with connect options opts, under the run's label lbl. */
  function CopyRun(env: Environment, opts: Option<string>, lbl: string, backupPath: string, backupOpts: seq<string>, at: nat): Part<()>
  {
    if Truthy(opts) then Part([Sql(ShowDataDirectory)], Failure(NameError))
    else
      var argv := BackupArgv(["rsync"], backupOpts, env.dataDirectory, backupPath, lbl);
      var copied := BackupCallResult(argv, env.outcome(at + 1));
      if copied.Failure? then Part([Sql(ShowDataDirectory), Run(argv)], copied)
      else
        var finalized := FinalizeRun(env, backupPath, lbl, at + 2);
        Part([Sql(ShowDataDirectory), Run(argv)] + finalized.events, finalized.result)
  }

  /** What the backup part of main does from log position at, with connect options opts and
      memoized label label0: initiate_backup, perform_backup, and finalize_backup only when
      the copy returned. */
  function BackupRun(env: Environment, opts: Option<string>, label0: Option<string>, backupPath: string, backupOpts: seq<string>, at: nat): Part<()>
  {
    var lbl := RunLabel(env, label0, at);
    var copy := CopyRun(env, opts, lbl, backupPath, backupOpts, at + 1);
    Part([Sql(StartBackup(lbl))] + copy.events, copy.result)
  }

  /** The backup starts with pg_start_backup under the run's label. pg_stop_backup is issued
      exactly when the copy of the data directory returned: when the copy raises, the run
      ends with that error and the server is left in backup mode. When the part returns, the
      data directory and the backup_label file have been copied under the label. */
  lemma BackupRunStopsOnlyAfterCopy(env: Environment, opts: Option<string>, label0: Option<string>, backupPath: string, backupOpts: seq<string>, at: nat)
    ensures var p := BackupRun(env, opts, label0, backupPath, backupOpts, at);
      var lbl := RunLabel(env, label0, at);
      var argv := BackupArgv(["rsync"], backupOpts, env.dataDirectory, backupPath, lbl);
      var copied := if Truthy(opts) then Failure(NameError) else BackupCallResult(argv, env.outcome(at + 2));
      && |p.events| >= 2 && p.events[0] == Sql(StartBackup(lbl)) && p.events[1] == Sql(ShowDataDirectory)
      && (Sql(StopBackup) in p.events <==> copied.Success?)
      && (copied.Failure? ==> p.result == copied)
      && (p.result.Success? ==>
            Run(argv) in p.events && Run(WriteArgv(["rsync"], env.tempFile, backupPath, lbl, "backup_label")) in p.events)
  {
    var lbl := RunLabel(env, label0, at);
    var copy := CopyRun(env, opts, lbl, backupPath, backupOpts, at + 1);
    CopyRunStopsOnlyAfterCopy(env, opts, lbl, backupPath, backupOpts, at + 1);
    var events := [Sql(StartBackup(lbl))] + copy.events;
    assert events[1] == copy.events[0];
    assert forall e :: e in events <==> e == Sql(StartBackup(lbl)) || e in copy.events;
  }

  /** The same for perform_backup and finalize_backup under the label lbl. */
  lemma CopyRunStopsOnlyAfterCopy(env: Environment, opts: Option<string>, lbl: string, backupPath: string, backupOpts: seq<string>, at: nat)
    ensures var p := CopyRun(env, opts, lbl, backupPath, backupOpts, at);
      var argv := BackupArgv(["rsync"], backupOpts, env.dataDirectory, backupPath, lbl);
      var copied := if Truthy(opts) then Failure(NameError) else BackupCallResult(argv, env.outcome(at + 1));
      && |p.events| >= 1 && p.events[0] == Sql(ShowDataDirectory)
      && (Sql(StopBackup) in p.events <==> copied.Success?)
      && (copied.Failure? ==> p.result == copied)
      && (p.result.Success? ==>
            Run(argv) in p.events && Run(WriteArgv(["rsync"], env.tempFile, backupPath, lbl, "backup_label")) in p.events)
  {
    var p := CopyRun(env, opts, lbl, backupPath, backupOpts, at);
    var argv := BackupArgv(["rsync"], backupOpts, env.dataDirectory, backupPath, lbl);
    var started := [Sql(ShowDataDirectory), Run(argv)];
    assert Sql(StopBackup) !in started;
    if !Truthy(opts) && BackupCallResult(argv, env.outcome(at + 1)).Success? {
      var finalized := FinalizeRun(env, backupPath, lbl, at + 2);
      assert p.events == started + finalized.events;
      assert finalized.events[0] == Sql(StopBackup) && finalized.events[2] == Run(WriteArgv(["rsync"], env.tempFile, backupPath, lbl, "backup_label"));
      assert p.events[1] == Run(argv) && p.events[2] == Sql(StopBackup) && p.events[4] == finalized.events[2];
    }
  }

  /** The backup part of main: initiate_backup, perform_backup and finalize_backup, each
      run only when the one before returned. */
  method BackupPhase(st: State, backupPath: string, backupOpts: seq<string>) returns (r: Result<(), Error>, ghost events: seq<Event>)
    requires st.Valid()
    modifies st
    ensures st.Valid() && st.Kept() && st.runLabel == Some(RunLabel(st.env, old(st.runLabel), |old(st.log)|))
    ensures st.log == old(st.log) + events && BackupEvents(events)
    ensures Part(events, r) == BackupRun(st.env, st.rsyncOpts, old(st.runLabel), backupPath, backupOpts, |old(st.log)|)
  {
    ghost var started, copied;
    started := InitiateBackup(st);
    assert st.runLabel.value == RunLabel(st.env, old(st.runLabel), |old(st.log)|) && |st.log| == |old(st.log)| + 1;
    r, copied := CopyAndFinalize(st, backupPath, backupOpts);
    Regroup(old(st.log), started, copied, []);
    BackupAppend(started, copied);
    events := started + copied;
  }

  /** perform_backup, then finalize_backup when the copy returned. */
  method CopyAndFinalize(st: State, backupPath: string, backupOpts: seq<string>) returns (r: Result<(), Error>, ghost events: seq<Event>)
    requires st.Valid() && st.runLabel.Some?
    modifies st
    ensures st.Valid() && st.Kept() && st.runLabel == old(st.runLabel)
    ensures st.log == old(st.log) + events && BackupEvents(events)
    ensures Part(events, r) == CopyRun(st.env, st.rsyncOpts, st.runLabel.value, backupPath, backupOpts, |old(st.log)|)
  {
    ghost var finalized;
    r, events := PerformBackup(st, backupPath, backupOpts);
    if r.Success? {
      assert |st.log| == |old(st.log)| + 2;
      r, finalized := FinalizeBackup(st, backupPath);
      Regroup(old(st.log), events, finalized, []);
      BackupAppend(events, finalized);
      events := events + finalized;
    }
  }

  /** The three parts of a run of main, and how it ends. */
  datatype RunParts = RunParts(backup: seq<Event>, retention: seq<Event>, archive: seq<Event>, result: Result<(), Error>)

  /** How main strings its parts together once the arguments are checked: the backup part b
      when asked for, then the retention part k when keep is positive, then the archive part
      w when asked for, each only when every part before it returned. */
  function Sequenced(args: Args, b: Part<()>, k: Part<()>, w: Part<WalCleanup>): RunParts
  {
    var backupPart := if args.backup then b.events else [];
    var backedUp := if args.backup then b.result else Success(());
    if backedUp.Failure? then RunParts(backupPart, [], [], backedUp)
    else
      var retentionPart := if args.keep > 0 then k.events else [];
      var retained := if args.keep > 0 then k.result else Success(());
      if retained.Failure? then RunParts(backupPart, retentionPart, [], retained)
      else if !args.cleanArchive then RunParts(backupPart, retentionPart, [], Success(()))
      else RunParts(backupPart, retentionPart, w.events, if w.result.Success? then Success(()) else Failure(w.result.error))
  }

  /** Each part runs exactly when it is asked for and every part before it returned, and
      then it is that part's run in full; the run ends with the first part's exception, and
      it returns exactly when every part that ran returned. */
  lemma SequencedStopsAtFirstFailure(args: Args, b: Part<()>, k: Part<()>, w: Part<WalCleanup>)
    ensures var p := Sequenced(args, b, k, w);
      var retentionRuns := (args.backup ==> b.result.Success?) && args.keep > 0;
      var archiveRuns := (args.backup ==> b.result.Success?) && (args.keep > 0 ==> k.result.Success?) && args.cleanArchive;
      && p.backup == (if args.backup then b.events else [])
      && p.retention == (if retentionRuns then k.events else [])
      && p.archive == (if archiveRuns then w.events else [])
      && (args.backup && b.result.Failure? ==> p.result == b.result)
      && (retentionRuns && k.result.Failure? ==> p.result == k.result)
      && (archiveRuns && w.result.Failure? ==> p.result == Failure(w.result.error))
      && (p.result.Success? <==>
            && (args.backup ==> b.result.Success?)
            && (retentionRuns ==> k.result.Success?)
            && (archiveRuns ==> w.result.Success?))
  {
  }

  /** The events of each part are of that part's kind. */
  lemma BackupRunKinds(env: Environment, opts: Option<string>, label0: Option<string>, backupPath: string, backupOpts: seq<string>, at: nat)
    ensures BackupEvents(BackupRun(env, opts, label0, backupPath, backupOpts, at).events)
  {
    var lbl := RunLabel(env, label0, at);
    var argv := BackupArgv(["rsync"], backupOpts, env.dataDirectory, backupPath, lbl);
    var copy := CopyRun(env, opts, lbl, backupPath, backupOpts, at + 1);
    var copied := [Sql(ShowDataDirectory), Run(argv)];
    if !Truthy(opts) && BackupCallResult(argv, env.outcome(at + 2)).Success? {
      var finalized := FinalizeRun(env, backupPath, lbl, at + 3);
      FinalizeRunKinds(env, backupPath, lbl, at + 3);
      BackupAppend(copied, finalized.events);
      assert copy.events == copied + finalized.events;
    }
    BackupAppend([Sql(StartBackup(lbl))], copy.events);
  }

  lemma FinalizeRunKinds(env: Environment, backupPath: string, lbl: string, at: nat)
    ensures BackupEvents(FinalizeRun(env, backupPath, lbl, at).events)
  {
    var row := env.stopRow;
    var labelFile := WriteEvents(env, ["rsync"], backupPath, lbl, row.labelFile, "backup_label");
    BackupAppend([Sql(StopBackup)], labelFile);
    if Truthy(row.tablespaceMap) {
      BackupAppend([Sql(StopBackup)] + labelFile, WriteEvents(env, ["rsync"], backupPath, lbl, row.tablespaceMap.value, "tablespace_map"));
    }
  }

  lemma RetentionRunKinds(env: Environment, opts: Option<string>, backupPath: string, keep: int, at: nat)
    ensures RetentionEvents(RetentionRun(env, opts, backupPath, keep, at).events)
  {
    if !Truthy(opts) {
      var argv := ListArgv(["rsync"], backupPath);
      var listed := CurrentLabels(argv, env.outcome(at));
      if listed.Success? && |listed.value| > keep {
        var plan := DeletePlan(["rsync"], env.scratchDir, backupPath, SelectForRemoval(listed.value, keep));
        ScratchRunsAreRetention(env.scratchDir, plan[..Issued(plan, env.outcome, at + 2)]);
        RetentionAppend([Run(argv)], DeleteEvents(env.scratchDir, plan, env.outcome, at + 1));
      }
    }
  }

  lemma ArchiveRunKinds(env: Environment, opts: Option<string>, backupPath: string, pgBinDir: Option<string>, at: nat)
    ensures ArchiveEvents(ArchiveRun(env, opts, backupPath, pgBinDir, at).events)
  {
  }

  /** The parts and results of main's steps, as it takes them one after the other, make up
      Sequenced. */
  lemma SequencedOf(args: Args, b: Part<()>, k: Part<()>, w: Part<WalCleanup>,
                    bp: seq<Event>, kp: seq<Event>, wp: seq<Event>, rb: Result<(), Error>, rk: Result<(), Error>, r: Result<(), Error>)
    requires bp == (if args.backup then b.events else []) && rb == (if args.backup then b.result else Success(()))
    requires kp == (if rb.Success? && args.keep > 0 then k.events else [])
    requires rk == (if rb.Success? && args.keep > 0 then k.result else rb)
    requires wp == (if rk.Success? && args.cleanArchive then w.events else [])
    requires r == (if rk.Success? && args.cleanArchive then (if w.result.Success? then Success(()) else Failure(w.result.error)) else rk)
    ensures RunParts(bp, kp, wp, r) == Sequenced(args, b, k, w)
  {
    var p := Sequenced(args, b, k, w);
    assert p.backup == bp;
    assert p.retention == kp;
    assert p.archive == wp;
    if rk.Success? {
      var u: () := rk.value;
      assert u == ();
      assert rk == Success(());
    }
  }

  /** In every run of main whose parts cause events of their own kinds, every database
      statement comes before any scratch directory or file read, and every scratch directory
      before any file read. */
  lemma SequencedInOrder(args: Args, b: Part<()>, k: Part<()>, w: Part<WalCleanup>)
    requires BackupEvents(b.events) && RetentionEvents(k.events) && ArchiveEvents(w.events)
    ensures var p := Sequenced(args, b, k, w);
      var events := p.backup + p.retention + p.archive;
      && (forall i, j :: 0 <= i < |events| && 0 <= j < |events| && events[i].Sql? && (events[j].MakeScratch? || events[j].ReadFile?) ==> i < j)
      && (forall i, j :: 0 <= i < |events| && 0 <= j < |events| && events[i].MakeScratch? && events[j].ReadFile? ==> i < j)
  {
    var p := Sequenced(args, b, k, w);
    SequencedStopsAtFirstFailure(args, b, k, w);
    PartsInOrder(p.backup, p.retention, p.archive);
  }

  /** main: the argument check, then the backup when asked for, retention when keep is
      positive, and the archive clean-up when asked for; an exception ends the run at the
      step that raises it. The run's events come in three parts, one per phase. */
  method Execute(st: State, args: Args)
    returns (r: Result<(), Error>, ghost backupPart: seq<Event>, ghost retentionPart: seq<Event>, ghost archivePart: seq<Event>)
    requires st.Valid()
    modifies st
    ensures st.Valid()
    ensures st.log == old(st.log) + backupPart + retentionPart + archivePart
    ensures st.rsyncOpts == if CheckArgs(args).Failure? then old(st.rsyncOpts) else args.connectOpts
    ensures CheckArgs(args).Failure? ==> r == Failure(UsageError) && backupPart == [] && retentionPart == [] && archivePart == []
    ensures CheckArgs(args).Success? ==>
      RunParts(backupPart, retentionPart, archivePart, r) == Sequenced(args,
        BackupRun(st.env, args.connectOpts, old(st.runLabel), args.backupPath, args.backupOpts, |old(st.log)|),
        RetentionRun(st.env, args.connectOpts, args.backupPath, args.keep, |old(st.log) + backupPart|),
        ArchiveRun(st.env, args.connectOpts, args.backupPath, args.pgBinDir, |old(st.log) + backupPart + retentionPart|))
  {
    var checked := CheckArgs(args);
    if checked.Failure? {
      return Failure(checked.error), [], [], [];
    }
    st.SetRsyncOpts(args.connectOpts);
    r, backupPart, retentionPart, archivePart := RunPhases(st, args);
  }

  /** The body of main once the connect options are set: the three parts, each run only when
      it is asked for and every part before it returned. */
  method RunPhases(st: State, args: Args)
    returns (r: Result<(), Error>, ghost backupPart: seq<Event>, ghost retentionPart: seq<Event>, ghost archivePart: seq<Event>)
    requires st.Valid() && st.rsyncOpts == args.connectOpts
    modifies st
    ensures st.Valid() && st.rsyncOpts == args.connectOpts
    ensures st.log == old(st.log) + backupPart + retentionPart + archivePart
    ensures RunParts(backupPart, retentionPart, archivePart, r) == Sequenced(args,
        BackupRun(st.env, args.connectOpts, old(st.runLabel), args.backupPath, args.backupOpts, |old(st.log)|),
        RetentionRun(st.env, args.connectOpts, args.backupPath, args.keep, |old(st.log) + backupPart|),
        ArchiveRun(st.env, args.connectOpts, args.backupPath, args.pgBinDir, |old(st.log) + backupPart + retentionPart|))
  {
    var rb, rk;
    rb, backupPart := BackupStep(st, args);
    rk, retentionPart := RetentionStep(st, args, rb);
    assert st.log == old(st.log) + backupPart + retentionPart;
    r, archivePart := ArchiveStep(st, args, rk);
    SequencedOf(args,
      BackupRun(st.env, args.connectOpts, old(st.runLabel), args.backupPath, args.backupOpts, |old(st.log)|),
      RetentionRun(st.env, args.connectOpts, args.backupPath, args.keep, |old(st.log) + backupPart|),
      ArchiveRun(st.env, args.connectOpts, args.backupPath, args.pgBinDir, |old(st.log) + backupPart + retentionPart|),
      backupPart, retentionPart, archivePart, rb, rk, r);
  }

  /** The backup part of main, when it is asked for. */
  method BackupStep(st: State, args: Args) returns (r: Result<(), Error>, ghost part: seq<Event>)
    requires st.Valid() && st.rsyncOpts == args.connectOpts
    modifies st
    ensures st.Valid() && st.rsyncOpts == args.connectOpts && st.log == old(st.log) + part
    ensures var b := BackupRun(st.env, args.connectOpts, old(st.runLabel), args.backupPath, args.backupOpts, |old(st.log)|);
      part == (if args.backup then b.events else []) && r == (if args.backup then b.result else Success(()))
  {
    r, part := Success(()), [];
    if args.backup {
      r, part := BackupPhase(st, args.backupPath, args.backupOpts);
    }
  }

  /** The retention part of main, when keep is positive and the backup part returned rb. */
  method RetentionStep(st: State, args: Args, rb: Result<(), Error>) returns (r: Result<(), Error>, ghost part: seq<Event>)
    requires st.Valid() && st.rsyncOpts == args.connectOpts
    modifies st
    ensures st.Valid() && st.rsyncOpts == args.connectOpts && st.log == old(st.log) + part
    ensures var k := RetentionRun(st.env, args.connectOpts, args.backupPath, args.keep, |old(st.log)|);
      part == (if rb.Success? && args.keep > 0 then k.events else []) && r == (if rb.Success? && args.keep > 0 then k.result else rb)
  {
    r, part := rb, [];
    if rb.Success? && args.keep > 0 {
      r, part := CleanupOldBackups(st, args.backupPath, args.keep);
    }
  }

  /** The archive part of main, when it is asked for and the parts before it returned rk. */
  method ArchiveStep(st: State, args: Args, rk: Result<(), Error>) returns (r: Result<(), Error>, ghost part: seq<Event>)
    requires st.Valid() && st.rsyncOpts == args.connectOpts
    modifies st
    ensures st.Valid() && st.rsyncOpts == args.connectOpts && st.log == old(st.log) + part
    ensures var w := ArchiveRun(st.env, args.connectOpts, args.backupPath, args.pgBinDir, |old(st.log)|);
      && part == (if rk.Success? && args.cleanArchive then w.events else [])
      && r == (if rk.Success? && args.cleanArchive then (if w.result.Success? then Success(()) else Failure(w.result.error)) else rk)
  {
    r, part := rk, [];
    if rk.Success? && args.cleanArchive {
      var cleaned;
      cleaned, part := CleanupWalArchive(st, args.backupPath, args.pgBinDir);
      r := if cleaned.Success? then Success(()) else Failure(cleaned.error);
    }
  }
}
