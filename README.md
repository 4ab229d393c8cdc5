# PostgreSQL PITR backup script, modelled in Dafny

This project models the core of `files/backup.py`. That script takes point-in-time-recovery base backups of a PostgreSQL server and works in these steps:

1. It calls `pg_start_backup` under a label taken from the clock (`%Y%m%dT%H%M%SZ`).
2. It rsyncs the data directory into `backup_path/label`, leaving out the `RSYNC_EXCLUDES` entries.
3. It calls `pg_stop_backup` and copies the `backup_label` and `tablespace_map` files it returns next to the data.
4. With `--keep`, it removes the oldest backups. It does this in two phases: it drains each backup directory by syncing an empty scratch directory into it, then removes the emptied directories with one include/exclude rsync.
5. With `--clean-archive`, it reads the last WAL segment named in the oldest backup's `backup_label` and has `pg_archivecleanup` remove the archived segments that are older.

The model has one module per concern:

- `Common`: `Option`, `Result` and the exceptions the script can raise, as an `Error` datatype.
- `Strings`: the Python string operations the script relies on:
  - `str.splitlines`, `str.split()[-1]`, `str.split(sep)` and `str.rstrip`;
  - `int()` on decimal digits;
  - zero-padded `strftime` fields;
  - POSIX `os.path.join`.
- `Labels`: the `Label` class.
  - `Label(s)` parsing and `__str__`.
  - The five comparison operators, exactly as written. Each one compares date and time separately and joins the two with `and`.
  - `BACKUP_LABEL_RE.match`, which is a match at the start of the string only.
  - The label formatted from a clock reading.
  - The chronological order `Before` that the operators are evidently meant to give.
- `Catalog`: the listing loop of `get_current_labels`.
  - Each line's last token, filtered by the label pattern and parsed.
  - `bisect.insort`, written as the `bisect_right` loop. It is generic in the order, so it can run with the operators as written or with `Before`.
- `Retention`: the `labels[:len(labels) - keep]` choice of `cleanup_old_backups`, and what the as-written order makes of it.
- `Commands`: every argv the script builds, and `check_call`, `check_output` and the status-24 rule of `perform_backup` as functions of a command's outcome.
- `WalCutoff`: `LAST_SEGMENT_RE` applied line by line, including the backtracking of its greedy `.*`.
- `Backup`: the run itself.
  - The `state` object is a class. It holds the memoized `_label`, `_rsync_opts` and a log of every event the run causes: SQL statements, commands, scratch directories, temporary files and file reads.
  - Every step of `main` is a method that appends to that log. Its contract equates its events and result with a function of the environment and the log length: `FinalizeRun`, `CopyRun`, `BackupRun`, `RetentionRun`, `FromOldestRun` and `ArchiveRun` for the steps, and `Sequenced` for the way `main` strings them together.
  - Lemmas about those functions state what the script promises: when `pg_stop_backup` is issued, which backups are removed, that the run stops at the first exception, and the order of its events.

Outside answers are fixed in advance in an `Environment`:

- the clock reading after n events;
- the outcome of the command logged at position n;
- the data directory;
- the `pg_stop_backup` row;
- the readable files;
- the scratch and temporary file names.

Each step's contract is therefore a function of the old log length and the environment.

The model keeps the script's own defects where they change what it does:

- `State.rsync_cmd` reads a global `rsync_opts` that is never defined. Any run with `--rsync-connect-opts` therefore raises `NameError` at the first rsync command. `RsyncCmd` and every step that builds an rsync command model this.
- `Label.__lt__` and its siblings are not a total order, nor even a strict weak order, so `bisect.insort` under them does not sort. This is logged under Findings. The main model lists backups in chronological order, and `Retention` exhibits the order as written.

## Model

| member | source | states |
|---|---|---|
| Strings.LineEnd | files/backup.py:215 | the first line boundary of a string: nothing before it is a boundary and it is one, or there is none |
| Strings.SplitLines | files/backup.py:215 | `splitlines()` yields lines holding no boundary, and no lines exactly for the empty string |
| Strings.SplitLinesNewline | files/backup.py:253 | a line followed by `\n` is split off as the first line, whatever follows |
| Strings.TrailingEndDropsSpace | files/backup.py:216 | trimming trailing whitespace removes whitespace only, and all of it |
| Strings.WordStartStopsAtSpace | files/backup.py:216 | the last word goes back over non-whitespace only, up to whitespace or the start |
| Strings.LastTokenIsLastWord | files/backup.py:216 | `line.split()[-1]` is absent (IndexError) exactly for an all-whitespace line; otherwise it is a non-empty run of non-whitespace, followed by nothing but whitespace, that starts the line or follows whitespace |
| Strings.RStrip | files/backup.py:161 | `rstrip(c)` gives a prefix that does not end in c |
| Strings.RStripRemovesOnly | files/backup.py:63 | what `rstrip(c)` removes consists of c's only |
| Strings.IndexOf | files/backup.py:63 | the first occurrence of a character: none before it, and it is one, or there is none |
| Strings.Split | files/backup.py:63 | `split(sep)` never gives an empty list, and its first part is everything before the first separator |
| Strings.SplitJoin | files/backup.py:63 | no part of a split contains the separator, and joining the parts with it gives the string back |
| Strings.Pad | files/backup.py:117 | a strftime field of the given width holds exactly that many decimal digits |
| Strings.NumPad | files/backup.py:117 | a padded number that fits the width reads back as itself |
| Strings.NumAppend | files/backup.py:63 | the value of concatenated digit strings is positional |
| Strings.Int | files/backup.py:63 | on the parts of a label the pattern matched, which are all `Label()` gives it, `int()` succeeds exactly on a non-empty digit string and raises ValueError otherwise |
| Strings.JoinEndsWith | files/backup.py:162 | `os.path.join(a, b)` ends with b, and for a relative b with a non-empty a it starts with a and puts a '/' before b |
| Labels.Ints | files/backup.py:63 | the list comprehension of `int()` can only fail with ValueError |
| Labels.IntsEach | files/backup.py:63 | the comprehension succeeds exactly when every part is a number, and then holds each part's value in place |
| Labels.StripMatched | files/backup.py:63 | on a matched label, `rstrip('Z')` keeps the first 15 characters and stops at 15 exactly when the rest is all 'Z' |
| Labels.SplitMatched | files/backup.py:63 | `split('T')` of a matched label gives the eight date digits first and the six time digits second |
| Labels.ParseMatched | files/backup.py:53-66 | on a string the label pattern matches, `Label(s)` succeeds exactly when only 'Z's follow the 16th character; then date and time are the two digit groups and `str()` gives s back; otherwise it raises ValueError |
| Labels.Format | files/backup.py:117 | the strftime label is 16 characters long and matches `BACKUP_LABEL_RE` |
| Labels.FormatGroups | files/backup.py:117 | the date and time digit groups of a formatted label are the padded clock fields |
| Labels.ThreeFields | files/backup.py:63 | three zero-padded fields read back as one number in base 100 |
| Labels.FormatRoundTrip | files/backup.py:59-66 | the label of a clock reading parses back to that reading's date and time numbers, and `str()` of the Label is the label |
| Labels.PlaceValue | files/backup.py:63 | comparing `hi * base + lo` numbers is comparing (hi, lo) pairs lexicographically |
| Labels.BeforeIsChronological | files/backup.py:59-63 | the chronological order on Labels agrees exactly with the order of the clock readings they were made from |
| Labels.SourceOrderLaws | files/backup.py:68-81 | `__eq__` is equality of both fields; `<` is irreflexive and transitive; `>` and `>=` are the converses of `<` and `<=`; `<` implies `<=`; within one date `<` and `<=` compare the times |
| Labels.SourceOrderNotTotal | files/backup.py:71-72 | two labels exist, made one after the other, that are neither `<`, `>` nor `==` each other |
| Labels.SourceOrderNotWeak | files/backup.py:71-72 | incomparability under `<` is not transitive, so `<` is not a strict weak order |
| Labels.ExtraZAccepted | files/backup.py:53-69 | a label with an extra 'Z' matches the pattern and parses, and `__eq__` calls it equal to the label although `str()` differs |
| Labels.SameDateOrder | files/backup.py:71-72 | among labels of one date, `<` is a strict weak order, and being in order for it means being sorted by time |
| Labels.BeforeOrder | files/backup.py:59-63 | the chronological order is a strict weak order on any labels, and being in order for it means being ordered by date and then by time |
| Labels.ChronologicalIsInOrder | files/backup.py:71-72 | a chronologically ordered list is also in order for `<` as written |
| Catalog.Extend | files/backup.py:215-219 | reading one more line succeeds exactly when the lines so far and that line do, and otherwise keeps the earlier error |
| Catalog.ReadAll | files/backup.py:215-219 | a listing read without error yields at most one label per line |
| Catalog.Entries | files/backup.py:215-219 | the labels of a listing number at most its lines |
| Catalog.Texts | files/backup.py:220 | `map(str, labels)` has one string per label |
| Catalog.TextsEach | files/backup.py:220 | string i is `str()` of label i |
| Catalog.TextsAppend | files/backup.py:220 | the strings of two lists joined are the two lists of strings joined |
| Catalog.TextsRemove | files/backup.py:220 | taking a label out of a list takes its string out of the list's strings |
| Catalog.LabelRemove | files/backup.py:219 | taking element k out of a list takes it out of the list's multiset |
| Catalog.TextsPermutes | files/backup.py:220 | labels that are a permutation of each other have strings that are a permutation of each other |
| Catalog.EntryOutcome | files/backup.py:216-218 | a line is read without error exactly when it has a token that is either not matched by the pattern or parses; a Label it contributes carries its token; an unmatched token contributes nothing |
| Catalog.EntriesSnoc | files/backup.py:215 | reading the listing up to line n + 1 is reading it up to line n, then line n |
| Catalog.ReadAllSucceeds | files/backup.py:215-218 | the listing is read without error exactly when every line is |
| Catalog.EntriesSucceed | files/backup.py:215-218 | the listing is read without error exactly when every line is |
| Catalog.EntriesAreMatchedNames | files/backup.py:215-218 | the labels read are exactly the matched names, in listing order, and every other entry (`wal_archive`) is dropped |
| Catalog.ListingLineName | files/backup.py:216 | a listing line that ends in a name without whitespace contributes that name |
| Catalog.ListingLineEntry | files/backup.py:216-218 | a line ending in a backup's label contributes that backup's Label; a line ending in a name too short for the pattern contributes nothing |
| Catalog.FirstErrorStands | files/backup.py:215-216 | once a line raises, the listing raises that error whatever follows |
| Catalog.Bisect | files/backup.py:219 | the bisect_right search ends between lo and hi |
| Catalog.BisectAfterNotAbove | files/backup.py:219 | for any order and list, the element just before the insertion point is not above x |
| Catalog.BisectAtAbove | files/backup.py:219 | for any order and list, the element at the insertion point, if any, is above x |
| Catalog.BisectPastAll | files/backup.py:219 | when no element is above x, the insertion point is the end of the list |
| Catalog.BisectRight | files/backup.py:219 | the `lo`/`hi`/`mid` loop computes the bisect_right insertion point |
| Catalog.Insort | files/backup.py:219 | `bisect.insort` inserts x at the bisect_right point |
| Catalog.InsertKeepsOrder | files/backup.py:219 | under a strict weak order, inserting at a point with the two boundary properties keeps an ordered list ordered |
| Catalog.InsortAll | files/backup.py:213-219 | insorting every listed label gives a list of the same length |
| Catalog.InsortAllPermutes | files/backup.py:213-219 | the insorted list is a permutation of the listed labels |
| Catalog.InsortAllKeepsOrdered | files/backup.py:213-219 | a listing already in order comes out exactly as listed |
| Catalog.StrictWeakOnPart | files/backup.py:219 | a strict weak order on a list is one on any list of its elements |
| Catalog.InsortAllSorts | files/backup.py:213-219 | under a strict weak order on the listed labels, the insorted list is in order |
| Catalog.Collect | files/backup.py:213-219 | the listing loop raises the first failing line's error, or returns the listed labels insorted one by one |
| Catalog.CollectChronological | files/backup.py:213-219 | with the chronological order, the loop returns a permutation of the listed labels ordered by date and then by time, whatever the listing order |
| Retention.SelectForRemoval | files/backup.py:246-247 | the backups to remove are a prefix of the listing: none when at most keep are listed, all but keep when more are, all when keep is negative |
| Retention.RemovalSplits | files/backup.py:246-247 | the removed and kept labels give the listing back, and a second pass over the kept ones removes nothing |
| Retention.RemovesOldest | files/backup.py:244-249 | for a chronologically ordered listing, no kept backup is older than a removed one |
| Retention.TwoBackupListing | files/backup.py:215-219 | a two-line listing of two backups lists both, in order |
| Retention.ReversedListing | files/backup.py:207-219 | a listing with a newer backup first, whose time of day is earlier than the older one's, is read in full and is already in order for `<` as written |
| Retention.OrdersAgreeOnChronologicalListing | files/backup.py:71-72 | on a listing in chronological order, insorting with `<` as written and with the chronological order both give the listing back |
| Retention.SameDateSortedByTime | files/backup.py:71-72 | among backups of one date, insorting with `<` as written gives a permutation sorted by time of day |
| Retention.ReversedListingAsWritten | files/backup.py:244-266 | with the operators as written, `--keep=1` on that listing removes the newest backup and keeps the older one, and `labels[0]` is the newest backup |
| Commands.RsyncCmd | files/backup.py:94-99 | `rsync_cmd` raises NameError exactly when connect options are set, and is `['rsync']` otherwise |
| Commands.Flagged | files/backup.py:168 | the flag/item pairs hold two arguments per item |
| Commands.FlaggedPairs | files/backup.py:168 | each item comes right after its own copy of the flag, in the items' order |
| Commands.ExtendFlagged | files/backup.py:168 | the list comprehension extends the command by exactly the flag/item pairs |
| Commands.BackupArgvShape | files/backup.py:161-169 | the backup command has the base and options, then `--delete --delete-delay`, an `--exclude` pair for each of the 13 RSYNC_EXCLUDES entries in order, the data directory with exactly one trailing '/', and `backup_path/label` |
| Commands.DeletePlan | files/backup.py:228-239 | `rsync_delete_dirs` issues one command per label plus one |
| Commands.DeletePlanSteps | files/backup.py:228-237 | command i drains label i's directory, and the last command collapses them all |
| Commands.CollapseNamesEveryLabel | files/backup.py:234-237 | the collapse command names every label after its own `--include`, in order, then `--exclude * -d --delete scratch/ backup_path` |
| Commands.WriteArgvTarget | files/backup.py:181-188 | a file written under a label lands inside `backup_path/label`, after a '/' |
| Commands.CheckCall | files/backup.py:232 | `check_call` succeeds exactly on exit status 0; another status raises CalledProcessError with it, and a command that does not start raises OSError |
| Commands.CheckOutput | files/backup.py:210 | `check_output` fails exactly as `check_call` does, and otherwise yields the command's output |
| Commands.BackupCallResult | files/backup.py:173-177 | the backup rsync succeeds exactly on exit status 0 or 24, and otherwise raises what `check_call` raises |
| WalCutoff.DotLimit | files/backup.py:54 | `.*` reaches no further than the first '\n' |
| WalCutoff.GroupAtShape | files/backup.py:54 | a capture is non-empty, holds no ')', follows "(file " and is closed by ')' |
| WalCutoff.GroupAtFinds | files/backup.py:54 | any "(file " followed by a non-empty ')'-free run and ')' matches the rest of the pattern |
| WalCutoff.BacktrackFindsLast | files/backup.py:54 | greedy backtracking finds a match exactly when some position admits one, and then finds the last such position |
| WalCutoff.SegmentMatchIsLastGroup | files/backup.py:54 | `LAST_SEGMENT_RE.match(line)` succeeds exactly on a line that starts with the prefix and has an accepted "(file " within reach of `.*`; its group is non-empty, holds no ')' and is the last such one |
| WalCutoff.DotReachesEnd | files/backup.py:54 | `.*` reaches the end of a START WAL LOCATION line without line breaks |
| WalCutoff.NoLaterGroup | files/backup.py:54 | no "(file " follows the segment's own when the segment holds no '(' |
| WalCutoff.StartWalLocationLine | files/backup.py:54 | the line `START WAL LOCATION: <lsn> (file <segment>)` yields its segment |
| WalCutoff.FirstSegmentIsFirstMatch | files/backup.py:252-257 | the loop gives None exactly when no line matches, and otherwise the group of the first line that does |
| WalCutoff.BackupLabelFileSegment | files/backup.py:252-257 | a backup_label file whose first line is the START WAL LOCATION line yields that line's segment, whatever follows |
| Backup.State.constructor | files/backup.py:85-89 | a fresh state has no label, no rsync options and an empty log |
| Backup.State.SetRsyncOpts | files/backup.py:91-92 | sets the options and changes nothing else |
| Backup.State.GetLabel | files/backup.py:114-119 | the first use formats the clock reading; every later use returns the same string; the label always matches `BACKUP_LABEL_RE` |
| Backup.Call | files/backup.py:232 | a command is logged once, and its result is `check_call`'s for its outcome |
| Backup.InitiateBackup | files/backup.py:153-155 | its one event is `pg_start_backup` under the run's label, which is chosen here on first use |
| Backup.PerformBackup | files/backup.py:158-177 | logs `SHOW data_directory`, then the backup rsync into `backup_path/label` under the memoized label, with status 24 tolerated; with connect options set it raises NameError before any command |
| Backup.CopyDataDirectory | files/backup.py:161-177 | logs exactly the assembled backup command and returns its tolerated result, or raises NameError without a command |
| Backup.WriteBackupFile | files/backup.py:180-191 | stages the contents in the temporary file, copies it to `backup_path/label/name` and discards it whatever the copy's outcome; raises NameError before staging when connect options are set |
| Backup.FinalizeBackup | files/backup.py:194-204 | its events and result are `FinalizeRun`'s: `pg_stop_backup`, the backup_label write, and the tablespace_map write only when the first write succeeded and the row has a non-empty map; the result is the last write's |
| Backup.CurrentLabelsAreListed | files/backup.py:207-220 | the labels returned are the strings of a permutation of the listed labels, ordered by date and then by time; a listing already in that order comes back as listed |
| Backup.FirstIsOldest | files/backup.py:262-266 | the label cleanup_wal_archive takes as the oldest belongs to a listed backup that no listed backup is older than |
| Backup.AsWrittenAgreesOnSortedListing | files/backup.py:207-220 | on a listing in chronological order, the labels returned are those insorting with `Label.__lt__` as written gives |
| Backup.GetCurrentLabels | files/backup.py:207-220 | logs one `--list-only` command on `backup_path/` and returns the listing's labels, or its first error; raises NameError without a command when connect options are set |
| Backup.SucceedUpToEach | files/backup.py:228-239 | the first i commands succeed exactly when each of them does |
| Backup.FirstFailure | files/backup.py:228-239 | the first failing command's index is at most the plan's length |
| Backup.FirstFailureIsFirst | files/backup.py:228-239 | every command before the first failure succeeds, and that one fails |
| Backup.FirstFailureAt | files/backup.py:228-239 | the first failure is at i when all before i succeed and i fails |
| Backup.Issued | files/backup.py:228-239 | no more commands are issued than the plan holds |
| Backup.PlanStopsAtFirstFailure | files/backup.py:226-239 | a plan issues a prefix of itself that ends at its first failure, and fails exactly when some command would |
| Backup.RunsEach | files/backup.py:228-239 | event i of a sequence of commands runs command i |
| Backup.ScratchRunsAreRetention | files/backup.py:225-241 | making a scratch directory, running commands and removing it causes retention events only |
| Backup.IssuedUpTo | files/backup.py:226-239 | when the first failure is at i, the commands up to and including i are issued, and i's result is the plan's |
| Backup.DrainStep | files/backup.py:229-232 | logs exactly the command that empties `backup_path/label` and returns its `check_call` result, or raises NameError without a command |
| Backup.CollapseStep | files/backup.py:234-239 | logs exactly the include/exclude command that removes the emptied directories and returns its `check_call` result, or raises NameError without a command |
| Backup.StoppedAt | files/backup.py:226-239 | when the commands up to `last` ran, all before it succeeded, and `last` failed or was final, exactly those were issued and last's result is the plan's |
| Backup.DeleteInScratch | files/backup.py:226-239 | the `try` block logs the plan's commands up to the one that fails or the last one, every earlier one having succeeded, and returns that one's result |
| Backup.DeleteDirs | files/backup.py:223-241 | makes the scratch directory, runs the delete plan up to its first failure, removes the scratch directory on every path, and returns the plan's result |
| Backup.CleanupOldBackups | files/backup.py:244-249 | its events and result are `RetentionRun`'s: list the backups, then delete the first `len - keep` of them when more than keep are listed, and nothing otherwise |
| Backup.OldestAreRemoved | files/backup.py:244-249 | the backups chosen for removal are the strings of the first labels in chronological order, none newer than a kept one |
| Backup.CleanupWalArchive | files/backup.py:260-291 | its events and result are `ArchiveRun`'s: it fails the `':'` assertion first; otherwise it lists the backups and stops with no command when none are listed, the oldest backup's backup_label cannot be read, or it names no segment; otherwise it runs `pg_archivecleanup -d backup_path/wal_archive segment` and returns its result |
| Backup.CleanupFromOldest | files/backup.py:266-291 | its events and result are `FromOldestRun`'s: read the oldest backup's backup_label and run the clean-up only when a segment is found in it |
| Backup.ReadBackupLabel | files/backup.py:268-272 | logs the read and returns the file's contents, or None for any failure (the bare `except`) |
| Backup.CleanupArchiveTo | files/backup.py:279-291 | runs pg_archivecleanup from pg_bin_dir when one is given, else from PATH, and returns its `check_call` result |
| Backup.CheckArgs | files/backup.py:136-137 | the arguments are rejected exactly when `--clean-archive` is given with a path holding ':', and otherwise pass unchanged |
| Backup.PartsInOrder | files/backup.py:299-307 | in a run made of a backup part, then a retention part, then an archive part, every SQL statement precedes every scratch directory and file read, and every scratch directory precedes every file read |
| Backup.BackupRunStopsOnlyAfterCopy | files/backup.py:299-303 | the backup part starts with `pg_start_backup` under the run's label; `pg_stop_backup` is issued exactly when the data directory copy returned; a copy that raises ends the part with its error; when the part returns, the data directory and backup_label have been copied under that label |
| Backup.CopyRunStopsOnlyAfterCopy | files/backup.py:300-302 | the same for perform_backup followed by finalize_backup: `SHOW data_directory` first, `pg_stop_backup` exactly when the copy returned |
| Backup.BackupPhase | files/backup.py:299-302 | its events and result are `BackupRun`'s: initiate_backup, perform_backup, and finalize_backup only when the copy returned; the label is chosen once |
| Backup.CopyAndFinalize | files/backup.py:300-302 | its events and result are `CopyRun`'s under the memoized label |
| Backup.BackupRunKinds | files/backup.py:153-204 | the backup part causes only SQL statements, commands and temporary files |
| Backup.FinalizeRunKinds | files/backup.py:180-204 | finalize_backup causes only SQL statements, commands and temporary files |
| Backup.RetentionRunKinds | files/backup.py:223-249 | the retention part causes only commands and scratch directories |
| Backup.ArchiveRunKinds | files/backup.py:260-291 | the archive part causes only commands and file reads |
| Backup.SequencedStopsAtFirstFailure | files/backup.py:299-307 | each part runs exactly when asked for and every earlier part returned, and then in full; the run ends with the first part's exception; it returns exactly when every part that ran returned |
| Backup.SequencedInOrder | files/backup.py:299-307 | in any run whose parts cause their own kinds of event, every SQL statement precedes every scratch directory and file read, and every scratch directory precedes every file read |
| Backup.SequencedOf | files/backup.py:299-307 | the parts and results of main's steps taken one after the other make up `Sequenced` |
| Backup.BackupStep | files/backup.py:299-303 | with `--backup`, the part is `BackupRun`'s events and result; otherwise nothing runs |
| Backup.RetentionStep | files/backup.py:304-305 | when keep is positive and the backup part returned, the part is `RetentionRun`'s from the current log position; otherwise nothing runs and the earlier result stands |
| Backup.ArchiveStep | files/backup.py:306-307 | with `--clean-archive` and every earlier part returned, the part is `ArchiveRun`'s from the current log position; otherwise nothing runs and the earlier result stands |
| Backup.RunPhases | files/backup.py:299-307 | the three parts, each starting where the log stands, strung together as `Sequenced` says |
| Backup.Execute | files/backup.py:294-309 | a rejected command line raises the usage error before anything runs; otherwise the connect options are set and the run's three parts and result are `Sequenced` of `BackupRun`, `RetentionRun` and `ArchiveRun`, each from the log position where it starts; the log is the three parts in that order |

## Left out

- The database. The connection and cursor are not modelled. `pg_start_backup`, `SHOW data_directory` and `pg_stop_backup` are logged as statements that always succeed, and their answers (the data directory and the stop-backup row) come from the Environment. Database errors are not modelled.
- What rsync and pg_archivecleanup do to files is not modelled. A command is its argv plus an abstract outcome: an exit status with its output, or a failure to start.
- `shlex.split` is not modelled. The option strings are taken as already split into words.
- `log_command`, `shlex_quote` and logging in general are left out, because they only write messages. So are `configure_logging` and the elapsed-time report.
- argparse is left out, apart from the `--clean-archive` with ':' check. `Args` holds the parsed values with their defaults applied.
- `datetime.utcnow`, `tempfile.mkdtemp`, `NamedTemporaryFile` and `open().read()` are not modelled. They are answers from the Environment: a clock indexed by log position, fixed scratch and temporary names, and a map of readable files. Any read failure is a missing key.
- Strings.Int: `\d` and `int()` are modelled on ASCII digits only, because Python also accepts other Unicode decimal digits there. Python's `int()` also accepts a sign, surrounding whitespace and '_' between digits; these are not modelled because `Label()` never gives them to it. By Labels.StripMatched, on a matched label the first part is eight digits, and the second is either six digits (and then the last part) or holds the label's 'Z', so `int()` raises on it before any later part is read.
- Labels.Format: clock years are limited to 1000..9999. Below 1000, how strftime pads `%Y` depends on the platform's C library, and the label pattern needs four year digits.
- Backup.CurrentLabels, Backup.GetCurrentLabels, Backup.CleanupOldBackups, Backup.CleanupWalArchive, Backup.Execute: these insort with the chronological order `Before`, not with `Label.__lt__` as written at files/backup.py:219. On a listing in chronological order, the order rsync lists these names in, the two give the same labels (Backup.AsWrittenAgreesOnSortedListing). What the order as written does to other listings is under Findings.
- The UTF-8 decoding of the listing output is left out. The output is taken as already decoded text.
- Backup.DeleteDirs: a failure of `os.rmdir` in the `finally` block is not modelled. The scratch directory is always removed.
- Backup.CleanupWalArchive: under `python -O` the `assert` is skipped. The model keeps it as AssertionError.
- Backup.WriteBackupFile: the text or binary file mode is left out, because contents are modelled as strings.
- The message the script logs when pg_archivecleanup is missing (ENOENT) is left out. The OSError itself is modelled as `OSError(argv, enoent)`.

## Findings

| source | as written | input that shows it | evidently intended | confidence | as-written member | corrected member |
|---|---|---|---|---|---|---|
| files/backup.py:71-72 | `Label.__lt__` is `date <= o.date and time < o.time`. This is not a strict weak order, so `bisect.insort` leaves a listing whose newer backup has an earlier time of day in listing order. `cleanup_old_backups` then removes the newest backup. `cleanup_wal_archive` takes `labels[0]` (files/backup.py:266), the newer backup, for the oldest: pg_archivecleanup then prunes the archive up to the newer backup's start segment and deletes WAL segments the older backup needs. | the listing lines `x 20230102T000000Z` then `x 20230101T120000Z` with `--keep=1` | order labels by date and then by time, so the oldest backups are removed | not executed; rsync lists names in sorted order, which is chronological for these labels, so it needs a listing out of that order | Retention.ReversedListingAsWritten | Catalog.CollectChronological, Backup.CurrentLabelsAreListed, Backup.OldestAreRemoved, Backup.FirstIsOldest |
