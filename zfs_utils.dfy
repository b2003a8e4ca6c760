/**
 * The helpers of graphdriver/zfs/utils.go: a linear membership search, the
 * check that the kernel lists "zfs" among its filesystems, and command
 * execution with white space trimmed from the captured output.
 */
module ZfsUtils {
  import opened Wrappers
  import opened GoStrings
  import opened Gateway

  /** sliceContainsString: a linear search with early return; true exactly when `a` is an element of `list`. */
  method SliceContainsString(list: seq<string>, a: string) returns (found: bool)
    ensures found <==> a in list
  {
    var i := 0;
    while i < |list|
      invariant 0 <= i <= |list|
      invariant a !in list[..i]
    {
      if list[i] == a {
        return true;
      }
      assert list[..i + 1] == list[..i] + [list[i]];
      i := i + 1;
    }
    assert list[..i] == list;
    return false;
  }

  /** Some line of the filesystem listing holds a white-space separated word that is exactly "zfs". */
  ghost predicate ListsZfs(content: string) {
    exists i :: 0 <= i < |ScanLines(content)| && "zfs" in Fields(ScanLines(content)[i])
  }

  /** The error supportsZFS reports when no line names zfs. */
  const ZfsNotFound := Message("ZFS was not found in /proc/filesystems")

  /** What supportsZFS returns for a given state of /proc/filesystems (None: nil, zfs is supported). */
  ghost function SupportOutcome(fs: FileState): Option<Error> {
    match fs
    case Unreadable(reason) => Some(OsError(reason))
    case Readable(content) => if ListsZfs(content) then None else Some(ZfsNotFound)
  }

  /**
   * supportsZFS, given what opening /proc/filesystems yields: an open error is
   * passed on; otherwise the lines are scanned in order, each split into words,
   * and the first line with the word "zfs" ends the scan with nil.
   */
  method SupportsZfs(fs: FileState) returns (err: Option<Error>)
    ensures err == SupportOutcome(fs)
  {
    match fs
    case Unreadable(reason) =>
      return Some(OsError(reason));
    case Readable(content) =>
      var lines := ScanLines(content);
      var i := 0;
      while i < |lines|
        invariant 0 <= i <= |lines|
        invariant forall k :: 0 <= k < i ==> "zfs" !in Fields(lines[k])
      {
        var words := Fields(lines[i]);
        var found := SliceContainsString(words, "zfs");
        if found {
          return None;
        }
        i := i + 1;
      }
      return Some(ZfsNotFound);
  }

  /** Empty content lists no filesystem, so the check reports that zfs was not found. */
  lemma EmptyListingNotFound()
    ensures SupportOutcome(Readable("")) == Some(ZfsNotFound)
  {
    assert ScanLines("") == [];
  }

  /** A first line whose words include "zfs" makes the check succeed, whatever follows it. */
  lemma FirstLineNamesZfs(line: string, rest: string)
    requires NoneIn(line, IsNewline) && "zfs" in Fields(DropCR(line))
    ensures SupportOutcome(Readable(line + "\n" + rest)) == None
  {
    ScanLinesFirst(line, rest);
    assert ScanLines(line + "\n" + rest)[0] == DropCR(line);
  }

  /** The words of the listing line "nodev\tzfs" are "nodev" and "zfs". */
  lemma NodevZfsWords()
    ensures Fields("nodev\tzfs") == ["nodev", "zfs"]
  {
    assert "nodev\tzfs" == "nodev" + ['\t'] + "zfs";
    assert NoneIn("nodev", IsSpace) && NoneIn("zfs", IsSpace);
    FieldsFuncTwoWords("nodev", '\t', "zfs", IsSpace);
  }

  /** A listing whose first line is "nodev\tzfs" names zfs. */
  lemma NodevZfsLine(rest: string)
    ensures SupportOutcome(Readable("nodev\tzfs" + "\n" + rest)) == None
  {
    NodevZfsWords();
    assert DropCR("nodev\tzfs") == "nodev\tzfs";
    FirstLineNamesZfs("nodev\tzfs", rest);
  }

  /** A listing of one line holding one word has exactly that line, and the line exactly that word. */
  lemma SingleWordListing(word: string)
    requires word != [] && NoneIn(word, IsSpace)
    ensures ScanLines(word + "\n") == [word] && Fields(word) == [word]
  {
    assert NoneIn(word, IsNewline);
    ScanLinesFirst(word, "");
    assert word + "\n" + "" == word + "\n";
    assert ScanLines("") == [];
    assert DropCR(word) == word;
    FieldsFuncOfWord(word, [], IsSpace);
    assert word + [] == word;
  }

  /** A word that only contains "zfs" is not the word "zfs": a listing of just "zfsx" or just "nozfs" does not qualify. */
  lemma LookalikeWordsNotZfs(word: string)
    requires word == "zfsx" || word == "nozfs"
    ensures SupportOutcome(Readable(word + "\n")) == Some(ZfsNotFound)
  {
    assert NoneIn(word, IsSpace);
    SingleWordListing(word);
    assert "zfs" !in [word];
  }

  /**
   * execCmd: runs the command, then returns its standard output and standard
   * error with leading and trailing white space removed, and the error cmd.Run
   * returned.
   */
  method ExecCmd(host: Host, name: string, args: seq<string>)
    returns (stdout: string, stderr: string, err: Option<Error>)
    modifies host`commands
    ensures host.commands == old(host.commands) + [[name] + args]
    ensures var raw := host.Response([name] + args);
      stdout == TrimSpace(raw.stdout) && stderr == TrimSpace(raw.stderr)
      && err == (if raw.outcome.RunFailed? then Some(OsError(raw.outcome.detail)) else None)
    ensures Trimmed(stdout) && Trimmed(stderr)
    ensures TrimSpace(stdout) == stdout && TrimSpace(stderr) == stderr
  {
    var raw := host.Run([name] + args);
    stdout := TrimSpace(raw.stdout);
    stderr := TrimSpace(raw.stderr);
    TrimSpaceIdempotent(raw.stdout);
    TrimSpaceIdempotent(raw.stderr);
    err := if raw.outcome.RunFailed? then Some(OsError(raw.outcome.detail)) else None;
  }
}
