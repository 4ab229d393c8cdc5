/** Option and Result wrappers, and the Python exceptions the backup script can raise. */
module Common {

  datatype Option<+T> = None | Some(value: T)

  datatype Result<+R, +E> = Success(value: R) | Failure(error: E)

  /** The exceptions that escape from the script's functions (its process then exits non-zero). */
  datatype Error =
    | CalledProcessError(argv: seq<string>, status: int)  // check_call / check_output saw a non-zero exit status
    | OSError(argv: seq<string>, enoent: bool)            // the program could not be started (enoent: it does not exist)
    | NameError                                           // `rsync_opts` is not defined (State.rsync_cmd)
    | IndexError(line: string)                            // `line.split()[-1]` on a line with no token
    | ValueError                                          // `int()` of a label part, or the wrong number of parts
    | AssertionError                                      // `':' in backup_path` in cleanup_wal_archive
    | UsageError                                          // parser.error in parse_args

  /** Python truthiness of an optional string: None and "" are false. */
  predicate Truthy(s: Option<string>)
  {
    s.Some? && s.value != ""
  }
}
