/**
 * The operating-system boundary of the ZFS driver: reading the kernel's list
 * of filesystems, running an external command, and changing the working
 * directory. `Host` is a scripted stand-in for the machine: it says what each
 * of these yields and records what the driver asked it to do.
 */
module Gateway {
  import opened Wrappers

  /** A Go `error` value as the driver produces or passes on. */
  datatype Error =
    | OsError(detail: string)  // an error from the OS or process layer, passed on unchanged
    | Message(text: string)    // an error built with errors.New or fmt.Errorf
    | IndexOutOfRange          // the run-time panic of indexing past the end of a slice

  /** What opening and reading a file yields: its text, or the error os.Open reports. */
  datatype FileState = Readable(content: string) | Unreadable(reason: string)

  /** How a command ended: it ran and exited with status 0, or cmd.Run returned an error. */
  datatype Outcome = Exited | RunFailed(detail: string)

  /** Everything a finished command leaves behind. */
  datatype CmdResult = CmdResult(stdout: string, stderr: string, outcome: Outcome)

  /** The result of running a command the host has no script for: the executable is not found. */
  const NotFound := CmdResult("", "", RunFailed("executable file not found in $PATH"))

  class Host {
    /** What reading /proc/filesystems yields. */
    const procFilesystems: FileState
    /** The scripted result of each command line (program name, then arguments). */
    const responses: map<seq<string>, CmdResult>
    /** The directories os.Chdir can enter. */
    const directories: set<string>
    /** The process's working directory. */
    var cwd: string
    /** Every command line run so far, in order. */
    var commands: seq<seq<string>>
    /** Every directory os.Chdir was asked to enter, in order. */
    var chdirs: seq<string>

    constructor (procFilesystems: FileState, responses: map<seq<string>, CmdResult>,
                 directories: set<string>, cwd: string)
      ensures this.procFilesystems == procFilesystems && this.responses == responses
      ensures this.directories == directories && this.cwd == cwd
      ensures commands == [] && chdirs == []
    {
      this.procFilesystems := procFilesystems;
      this.responses := responses;
      this.directories := directories;
      this.cwd := cwd;
      commands := [];
      chdirs := [];
    }

    /** The result running `argv` produces on this host. */
    function Response(argv: seq<string>): CmdResult {
      if argv in responses then responses[argv] else NotFound
    }

    /** exec.Command(argv...).Run() with stdout and stderr captured in buffers. */
    method Run(argv: seq<string>) returns (r: CmdResult)
      modifies this`commands
      ensures commands == old(commands) + [argv]
      ensures r == Response(argv)
    {
      commands := commands + [argv];
      r := Response(argv);
    }

    /** os.Chdir can enter `dir`: the empty name never names a directory (ENOENT), whatever the host lists. */
    predicate CanEnter(dir: string) {
      dir != "" && dir in directories
    }

    /** os.Chdir(dir): enters `dir` when it is an enterable directory, and reports an error otherwise. */
    method Chdir(dir: string) returns (err: Option<Error>)
      modifies this`cwd, this`chdirs
      ensures chdirs == old(chdirs) + [dir]
      ensures err.None? <==> CanEnter(dir)
      ensures dir == "" ==> err.Some?
      ensures cwd == if CanEnter(dir) then dir else old(cwd)
    {
      chdirs := chdirs + [dir];
      if dir != "" && dir in directories {
        cwd := dir;
        err := None;
      } else {
        err := Some(OsError("chdir " + dir + ": no such file or directory"));
      }
    }
  }
}
