/** The command lines the script hands to subprocess, and what a finished subprocess means to
    check_call and check_output. */
module Commands {
  import opened Common
  import opened Strings

  /** RSYNC_EXCLUDES: what a base backup leaves out of the data directory. */
  const RsyncExcludes: seq<string> := [
    "pg_wal/*", "pg_xlog/*", "postmaster.pid", "postmaster.opts", "pg_replslot/*",
    "pg_dynshmem/*", "pg_notify/*", "pg_serial/*", "pg_snapshots/*", "pg_stat_tmp/*",
    "pg_subtrans/*", "pg_tmp*", "pg_internal.init"
  ]

  /** State.rsync_cmd. With connect options set, the script reads a global `rsync_opts` that
      it never defines, so the property raises NameError; otherwise the command is `rsync`. */
  function RsyncCmd(connectOpts: Option<string>): (r: Result<seq<string>, Error>)
    ensures r.Failure? <==> Truthy(connectOpts)
    ensures r.Success? ==> r.value == ["rsync"]
    ensures r.Failure? ==> r.error == NameError
  {
    if Truthy(connectOpts) then Failure(NameError) else Success(["rsync"])
  }

  /** The arguments `[cmd.extend([flag, item]) for item in items]` adds: each item after its
      own copy of flag, in order. */
  function Flagged(flag: string, items: seq<string>): (r: seq<string>)
    ensures |r| == 2 * |items|
  {
    if items == [] then [] else Flagged(flag, items[..|items| - 1]) + [flag, items[|items| - 1]]
  }

  /** Each item sits right after its own copy of flag, in the items' order. */
  lemma {:induction false} FlaggedPairs(flag: string, items: seq<string>)
    ensures forall i :: 0 <= i < |items| ==> Flagged(flag, items)[2 * i] == flag && Flagged(flag, items)[2 * i + 1] == items[i]
  {
    if items != [] {
      var front := items[..|items| - 1];
      FlaggedPairs(flag, front);
      forall i | 0 <= i < |items| - 1
        ensures Flagged(flag, items)[2 * i] == flag && Flagged(flag, items)[2 * i + 1] == items[i]
      {
        assert items[i] == front[i];
      }
    }
  }

  /** The list comprehension itself: cmd is extended pair by pair. */
  method ExtendFlagged(cmd: seq<string>, flag: string, items: seq<string>) returns (r: seq<string>)
    ensures r == cmd + Flagged(flag, items)
  {
    r := cmd;
    for i := 0 to |items|
      invariant r == cmd + Flagged(flag, items[..i])
    {
      assert items[..i + 1][..i] == items[..i];
      r := r + [flag, items[i]];
    }
    assert items[..|items|] == items;
  }

  /** perform_backup's command: the base command, the backup options, `--delete
      --delete-delay`, an `--exclude` pair per RSYNC_EXCLUDES entry, the data directory with
      exactly one trailing '/', and backup_path/label. */
  function BackupArgv(base: seq<string>, backupOpts: seq<string>, dataDir: string, backupPath: string, lbl: string): seq<string>
  {
    base + backupOpts + ["--delete", "--delete-delay"] + Flagged("--exclude", RsyncExcludes)
      + [RStrip(dataDir, '/') + "/", Join(backupPath, lbl)]
  }

  /** The backup command copies into backup_path/label from the data directory, named with a
      single trailing '/' so that rsync copies its contents, and excludes every one of the
      13 RSYNC_EXCLUDES entries, in order, after the options. */
  lemma BackupArgvShape(base: seq<string>, backupOpts: seq<string>, dataDir: string, backupPath: string, lbl: string)
    ensures var argv := BackupArgv(base, backupOpts, dataDir, backupPath, lbl);
      var n := |base| + |backupOpts|;
      && |argv| == n + 30
      && argv[..n] == base + backupOpts
      && argv[n] == "--delete" && argv[n + 1] == "--delete-delay"
      && (forall i :: 0 <= i < 13 ==> argv[n + 2 + 2 * i] == "--exclude" && argv[n + 3 + 2 * i] == RsyncExcludes[i])
      && argv[n + 28] == RStrip(dataDir, '/') + "/" && argv[n + 29] == Join(backupPath, lbl)
      && StartsWith(dataDir, argv[n + 28][..|argv[n + 28]| - 1])
      && (argv[n + 28][..|argv[n + 28]| - 1] == [] || argv[n + 28][|argv[n + 28]| - 2] != '/')
  {
    var argv := BackupArgv(base, backupOpts, dataDir, backupPath, lbl);
    var n := |base| + |backupOpts|;
    var ex := Flagged("--exclude", RsyncExcludes);
    FlaggedPairs("--exclude", RsyncExcludes);
    assert argv == (base + backupOpts) + ["--delete", "--delete-delay"] + ex + [RStrip(dataDir, '/') + "/", Join(backupPath, lbl)];
    forall i | 0 <= i < 13
      ensures argv[n + 2 + 2 * i] == "--exclude" && argv[n + 3 + 2 * i] == RsyncExcludes[i]
    {
      assert argv[n + 2 + 2 * i] == ex[2 * i] && argv[n + 3 + 2 * i] == ex[2 * i + 1];
    }
    var d := RStrip(dataDir, '/');
    assert (d + "/")[..|d + "/"| - 1] == d;
  }

  /** rsync_delete_dirs, first phase: empty backup_path/label by syncing the empty scratch
      directory into it. */
  function DrainArgv(base: seq<string>, scratch: string, backupPath: string, lbl: string): seq<string>
  {
    base + ["-r", "--delete", scratch + "/", Join(backupPath, lbl)]
  }

  /** rsync_delete_dirs, second phase: one `--include label` pair per label, everything else
      excluded, so that `-d --delete` removes the emptied directories and nothing else. */
  function CollapseArgv(base: seq<string>, scratch: string, backupPath: string, labels: seq<string>): seq<string>
  {
    base + Flagged("--include", labels) + ["--exclude", "*", "-d", "--delete", scratch + "/", backupPath]
  }

  /** Every command rsync_delete_dirs would run when none fails: one drain per label, in the
      given order, then the collapse. */
  function DeletePlan(base: seq<string>, scratch: string, backupPath: string, labels: seq<string>): (plan: seq<seq<string>>)
    ensures |plan| == |labels| + 1
  {
    seq(|labels|, i requires 0 <= i < |labels| => DrainArgv(base, scratch, backupPath, labels[i]))
      + [CollapseArgv(base, scratch, backupPath, labels)]
  }

  /** The plan drains label i as its command i, and collapses them all as its last. */
  lemma DeletePlanSteps(base: seq<string>, scratch: string, backupPath: string, labels: seq<string>)
    ensures var plan := DeletePlan(base, scratch, backupPath, labels);
      && (forall i :: 0 <= i < |labels| ==> plan[i] == DrainArgv(base, scratch, backupPath, labels[i]))
      && plan[|labels|] == CollapseArgv(base, scratch, backupPath, labels)
  {
  }

  /** The collapse command names every label to be removed, each right after its own
      `--include`, before the catch-all `--exclude *`; it syncs from the scratch directory
      into backup_path itself. */
  lemma CollapseNamesEveryLabel(base: seq<string>, scratch: string, backupPath: string, labels: seq<string>)
    ensures var argv := CollapseArgv(base, scratch, backupPath, labels);
      var n := |base| + 2 * |labels|;
      && |argv| == n + 6
      && (forall i :: 0 <= i < |labels| ==> argv[|base| + 2 * i] == "--include" && argv[|base| + 2 * i + 1] == labels[i])
      && argv[n..] == ["--exclude", "*", "-d", "--delete", scratch + "/", backupPath]
  {
    var argv := CollapseArgv(base, scratch, backupPath, labels);
    var inc := Flagged("--include", labels);
    FlaggedPairs("--include", labels);
    forall i | 0 <= i < |labels|
      ensures argv[|base| + 2 * i] == "--include" && argv[|base| + 2 * i + 1] == labels[i]
    {
      assert argv[|base| + 2 * i] == inc[2 * i] && argv[|base| + 2 * i + 1] == inc[2 * i + 1];
    }
    assert argv[|base| + 2 * |labels|..] == ["--exclude", "*", "-d", "--delete", scratch + "/", backupPath];
  }

  /** get_current_labels' command: list backup_path, named with exactly one trailing '/'. */
  function ListArgv(base: seq<string>, backupPath: string): seq<string>
  {
    base + ["--list-only", RStrip(backupPath, '/') + "/"]
  }

  /** write_backup_file's command: copy the staged temporary file to backup_path/label/name. */
  function WriteArgv(base: seq<string>, temp: string, backupPath: string, lbl: string, name: string): seq<string>
  {
    base + [temp, Join(Join(backupPath, lbl), name)]
  }

  /** A file written under a label, by a name that is not absolute, lands in that backup's
      directory: below backup_path/label, right after a '/'. */
  lemma WriteArgvTarget(base: seq<string>, temp: string, backupPath: string, lbl: string, name: string)
    requires backupPath != [] && lbl != [] && lbl[0] != '/' && lbl[|lbl| - 1] != '/'
    requires name != [] && name[0] != '/'
    ensures var target := WriteArgv(base, temp, backupPath, lbl, name)[|base| + 1];
      var dir := Join(backupPath, lbl);
      && StartsWith(target, dir) && StartsWith(dir, backupPath)
      && |target| == |dir| + 1 + |name| && target[|dir|] == '/' && target[|dir| + 1..] == name
  {
    var dir := Join(backupPath, lbl);
    var target := Join(dir, name);
    JoinEndsWith(backupPath, lbl);
    JoinEndsWith(dir, name);
    assert WriteArgv(base, temp, backupPath, lbl, name)[|base| + 1] == target;
    assert |dir| > |lbl| && StartsWith(dir, backupPath);
    assert dir[|dir| - 1] == lbl[|lbl| - 1] by {
      assert dir[|dir| - |lbl|..] == lbl;
    }
    assert target == dir + "/" + name;
  }

  /** cleanup_wal_archive's command: pg_archivecleanup, from pg_bin_dir when one is given,
      removing from backup_path/wal_archive every segment older than `segment`. */
  function CleanupArgv(pgBinDir: Option<string>, backupPath: string, segment: string): seq<string>
  {
    CleanupProgram(pgBinDir) + ["-d", Join(backupPath, "wal_archive"), segment]
  }

  /** pg_archivecleanup, found in pgBinDir when that is given and non-empty, else on PATH. */
  function CleanupProgram(pgBinDir: Option<string>): seq<string>
  {
    if Truthy(pgBinDir) then [Join(pgBinDir.value, "pg_archivecleanup")] else ["pg_archivecleanup"]
  }

  /** How a command ends: with an exit status and what it wrote to standard output, or without
      starting at all (OSError; enoent when the program does not exist). */
  datatype Outcome = Exited(status: int, output: string) | NotStarted(enoent: bool)

  /** subprocess.check_call: a zero status is success, any other raises CalledProcessError,
      and a program that does not start raises OSError. */
  function CheckCall(argv: seq<string>, o: Outcome): (r: Result<(), Error>)
    ensures r.Success? <==> o.Exited? && o.status == 0
    ensures o.Exited? && o.status != 0 ==> r == Failure(CalledProcessError(argv, o.status))
    ensures o.NotStarted? ==> r == Failure(OSError(argv, o.enoent))
  {
    match o
    case Exited(status, _) => if status == 0 then Success(()) else Failure(CalledProcessError(argv, status))
    case NotStarted(enoent) => Failure(OSError(argv, enoent))
  }

  /** subprocess.check_output: as check_call, and a success yields the command's output. */
  function CheckOutput(argv: seq<string>, o: Outcome): (r: Result<string, Error>)
    ensures r.Success? <==> CheckCall(argv, o).Success?
    ensures r.Success? ==> r.value == o.output
    ensures r.Failure? ==> r.error == CheckCall(argv, o).error
  {
    match CheckCall(argv, o)
    case Success(_) => Success(o.output)
    case Failure(e) => Failure(e)
  }

  /** perform_backup's handling of the rsync outcome: exit status 24 (some source files
      vanished while rsync ran) counts as success like 0; any other failure propagates. */
  function BackupCallResult(argv: seq<string>, o: Outcome): (r: Result<(), Error>)
    ensures r.Success? <==> o.Exited? && (o.status == 0 || o.status == 24)
    ensures r.Failure? ==> r == CheckCall(argv, o)
  {
    match CheckCall(argv, o)
    case Failure(CalledProcessError(_, 24)) => Success(())
    case other => other
  }
}
