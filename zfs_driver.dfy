/**
 * graphdriver/zfs/zfs.go: the ZFS graph driver's record, its start-up
 * sequence `Init`, and the methods of its driver interface, all of which are
 * still stubs; plus `getDataset` and `getPath` from utils.go, which are
 * methods of the same record.
 */
module ZfsDriver {
  import opened Wrappers
  import opened GoStrings
  import opened GoPath
  import opened Gateway
  import opened ZfsUtils

  /**
   * The driver record. `root` is the directory the driver was asked to manage.
   * `rootDataset` and `rootMountpoint` are the fields getDataset and getPath
   * read; the record as declared in zfs.go has only `root`, and Init leaves the
   * other two at Go's zero value, the empty string.
   */
  datatype Driver = Driver(root: string, rootDataset: string, rootMountpoint: string) {

    /** rootPath: the managed root, as given to Init. */
    function RootPath(): (path: string)
      ensures path == root
    {
      root
    }

    /** String: the driver's name. */
    function String(): (name: string)
      ensures name == "zfs"
    {
      "zfs"
    }

    /** Status: exactly one label/value pair, naming the root directory. */
    function Status(): (pairs: seq<(string, string)>)
      ensures |pairs| == 1 && pairs[0].0 == "Root Dir" && pairs[0].1 == root
    {
      [("Root Dir", root)]
    }

    /** Cleanup: not implemented; it always fails. */
    function Cleanup(): (err: Option<Error>)
      ensures err == Some(Message("zfs-Cleanup: not supported yet"))
    {
      Some(Message("zfs-Cleanup: not supported yet"))
    }

    /** Create: not implemented; it fails for every id and parent. */
    function Create(id: string, parent: string): (err: Option<Error>)
      ensures err == Some(Message("zfs-Create: not supported yet"))
    {
      Some(Message("zfs-Create: not supported yet"))
    }

    /** Remove: not implemented; it fails for every id. */
    function Remove(id: string): (err: Option<Error>)
      ensures err == Some(Message("zfs-Remove: not supported yet"))
    {
      Some(Message("zfs-Remove: not supported yet"))
    }

    /** Get: not implemented; it returns the empty path together with an error. */
    function Get(id: string): (result: (string, Option<Error>))
      ensures result.0 == "" && result.1 == Some(Message("zfs-Get: not supported yet"))
    {
      ("", Some(Message("zfs-Get: not supported yet")))
    }

    /** Exists: not implemented; no layer is ever reported present. */
    function Exists(id: string): (present: bool)
      ensures !present
    {
      false
    }

    /**
     * getDataset: path.Join(root_dataset, id). The id is not checked: a single
     * element lands directly below the dataset, but ".." or an id with slashes
     * is resolved lexically like any other path.
     */
    function GetDataset(id: string): (name: string)
      ensures IsElement(id) && IsCleanBase(rootDataset) ==> name == rootDataset + "/" + id
      ensures IsElement(id) && rootDataset == "/" ==> name == "/" + id
      ensures IsElement(id) && rootDataset == "" ==> name == id
      ensures name == "" || Clean(name) == name
    {
      JoinElement(rootDataset, id);
      JoinIsClean(rootDataset, id);
      Join(rootDataset, id)
    }

    /** getPath: path.Join(root_mountpoint, id), the same composition under the mount point. */
    function GetPath(id: string): (path: string)
      ensures IsElement(id) && IsCleanBase(rootMountpoint) ==> path == rootMountpoint + "/" + id
      ensures IsElement(id) && rootMountpoint == "/" ==> path == "/" + id
      ensures IsElement(id) && rootMountpoint == "" ==> path == id
      ensures path == "" || Clean(path) == path
    {
      JoinElement(rootMountpoint, id);
      JoinIsClean(rootMountpoint, id);
      Join(rootMountpoint, id)
    }
  }

  /** The record Init returns: `Driver{root: root}`, the other fields left empty. */
  function NewDriver(root: string): (d: Driver)
    ensures d.RootPath() == root
    ensures d.rootDataset == "" && d.rootMountpoint == ""
  {
    Driver(root, "", "")
  }

  /** getPath is getDataset with the mount point in the place of the dataset name. */
  lemma PathMirrorsDataset(root: string, dataset: string, mountpoint: string, id: string)
    ensures Driver(root, dataset, mountpoint).GetDataset(id) == Driver(root, mountpoint, dataset).GetPath(id)
  {
  }

  /** The id ".." is not confined to the base: it names the base's parent. */
  lemma DotDotNamesParent(d: Driver, parent: string, name: string)
    requires parent != [] && IsElement(name)
    ensures d.rootDataset == parent + "/" + name ==> d.GetDataset("..") == Clean(parent)
    ensures d.rootMountpoint == parent + "/" + name ==> d.GetPath("..") == Clean(parent)
    ensures d.rootMountpoint == parent + "/" + name && Clean(parent) == parent ==>
      !(d.rootMountpoint + "/" <= d.GetPath(".."))
  {
    CleanChildDotDot(parent, name);
  }

  /**
   * The mount point `Init` reads from the output of `zfs list`: the text is cut
   * into maximal runs of non-tab characters, the last run is taken, and one
   * trailing newline is removed from it. None stands for the run-time panic of
   * indexing the last field when there is none, that is when the output is
   * empty or all tabs.
   */
  function ParseMountPoint(out: string): (mp: Option<string>)
    ensures mp.None? <==> AllIn(out, IsTab)
    ensures mp.Some? ==> NoneIn(mp.value, IsTab)
  {
    var fields := FieldsFunc(out, IsTab);
    if |fields| == 0 then None
    else
      var last := fields[|fields| - 1];
      var mp := TrimSuffix(last, "\n");
      assert mp == last[..|mp|];
      Some(mp)
  }

  /**
   * The parsed mount point is the last maximal non-tab run with at most one
   * newline removed, whatever comes before it and however many tabs follow.
   */
  lemma {:induction false} ParseMountPointLastRun(p: string, m: string, q: string)
    requires p == [] || IsTab(p[|p| - 1])
    requires m != [] && NoneIn(m, IsTab) && AllIn(q, IsTab)
    ensures ParseMountPoint(p + m + q) == Some(TrimSuffix(m, "\n"))
  {
    LastField(p, m, q, IsTab);
  }

  lemma TrimNewline(m: string)
    ensures TrimSuffix(m + "\n", "\n") == m
  {
    assert (m + "\n")[|m|..] == "\n";
    assert (m + "\n")[..|m|] == m;
  }

  /** The single-column line `zfs list -H -o mountpoint` prints, "M\n", parses to exactly M. */
  lemma ParseSingleColumn(m: string)
    requires NoneIn(m, IsTab)
    ensures ParseMountPoint(m + "\n") == Some(m)
  {
    assert NoneIn(m + "\n", IsTab);
    ParseMountPointLastRun([], m + "\n", []);
    assert [] + (m + "\n") + [] == m + "\n";
    TrimNewline(m);
  }

  /** In a line with several columns the last column is taken. */
  lemma ParseLastColumn(columns: string, m: string)
    requires NoneIn(m, IsTab)
    ensures ParseMountPoint(columns + "\t" + m + "\n") == Some(m)
  {
    assert NoneIn(m + "\n", IsTab);
    ParseMountPointLastRun(columns + "\t", m + "\n", []);
    assert (columns + "\t") + (m + "\n") + [] == columns + "\t" + m + "\n";
    TrimNewline(m);
  }

  /** Only one trailing newline is removed: "M\n\n" gives "M\n". */
  lemma ParseStripsOneNewline(m: string)
    requires NoneIn(m, IsTab)
    ensures ParseMountPoint(m + "\n\n") == Some(m + "\n")
  {
    assert m + "\n\n" == (m + "\n") + "\n";
    ParseSingleColumn(m + "\n");
  }

  /** The command line Init runs to find the filesystem mounted at `root`. */
  function ListArgs(root: string): (argv: seq<string>)
    ensures |argv| == 8 && argv[0] == "zfs" && argv[1] == "list" && argv[7] == root
    ensures argv[2] == "-H" && argv[3] == "-o"
    ensures argv[4] == "mountpoint" && "name" !in argv[..7]
  {
    ["zfs", "list", "-H", "-o", "mountpoint", "-t", "filesystem", root]
  }

  /** The error Init reports when it cannot enter the mount point; it names the mount point. */
  function ChdirFailed(mountPoint: string): (err: Error)
    ensures err.Message? && |mountPoint| + 2 < |err.text|
    ensures "zfs-Init: " <= err.text
    ensures err.text[|err.text| - |mountPoint| - 2..] == "'" + mountPoint + "'"
  {
    Message("zfs-Init: Could not change to the mount point '" + mountPoint + "'")
  }

  /**
   * Init: check that the kernel supports ZFS, run `zfs list` for the root, read
   * the mount point from its output, enter that directory, and return the
   * driver. Each step that fails ends the sequence before the next one runs.
   */
  method Init(host: Host, root: string) returns (r: Result<Driver, Error>)
    modifies host`commands, host`cwd, host`chdirs
    ensures SupportOutcome(host.procFilesystems).Some? ==>
      r == Err(SupportOutcome(host.procFilesystems).value)
      && host.commands == old(host.commands)
      && host.chdirs == old(host.chdirs) && host.cwd == old(host.cwd)
    ensures SupportOutcome(host.procFilesystems).None? ==>
      host.commands == old(host.commands) + [ListArgs(root)]
    ensures var listed := host.Response(ListArgs(root));
      SupportOutcome(host.procFilesystems).None? && listed.outcome.RunFailed? ==>
        r == Err(OsError(listed.outcome.detail))
        && host.chdirs == old(host.chdirs) && host.cwd == old(host.cwd)
    ensures var listed := host.Response(ListArgs(root));
      SupportOutcome(host.procFilesystems).None? && listed.outcome.Exited?
      && ParseMountPoint(listed.stdout).None? ==>
        r == Err(IndexOutOfRange)
        && host.chdirs == old(host.chdirs) && host.cwd == old(host.cwd)
    ensures var listed := host.Response(ListArgs(root));
      var mp := ParseMountPoint(listed.stdout);
      SupportOutcome(host.procFilesystems).None? && listed.outcome.Exited? && mp.Some? ==>
        host.chdirs == old(host.chdirs) + [mp.value]
        && if host.CanEnter(mp.value)
           then r == Ok(NewDriver(root)) && host.cwd == mp.value
           else r == Err(ChdirFailed(mp.value)) && host.cwd == old(host.cwd)
    ensures r.Ok? ==> r.value == NewDriver(root)
  {
    var supportErr := SupportsZfs(host.procFilesystems);
    if supportErr.Some? {
      return Err(supportErr.value);
    }
    var listed := host.Run(ListArgs(root));
    if listed.outcome.RunFailed? {
      return Err(OsError(listed.outcome.detail));
    }
    var mp := ParseMountPoint(listed.stdout);
    if mp.None? {
      return Err(IndexOutOfRange);
    }
    var chdirErr := host.Chdir(mp.value);
    if chdirErr.Some? {
      return Err(ChdirFailed(mp.value));
    }
    return Ok(NewDriver(root));
  }

  /**
   * A blank line of `zfs list` output is not the index panic: it parses to the
   * empty mount point, which os.Chdir never enters, so Init then fails with the
   * chdir error.
   */
  lemma ParseBlankLine()
    ensures ParseMountPoint("\n") == Some("")
  {
    assert "" + "\n" == "\n";
    ParseSingleColumn("");
  }

  /**
   * What a driver returned by Init reports: the root it was given, the name
   * "zfs", one status pair with that root, and, with its dataset and mount
   * point fields empty, a bare id as both the dataset and the path of a layer.
   */
  lemma InitDriverSurface(root: string, id: string)
    requires IsElement(id)
    ensures NewDriver(root).RootPath() == root
    ensures NewDriver(root).Status() == [("Root Dir", root)]
    ensures NewDriver(root).GetDataset(id) == id && NewDriver(root).GetPath(id) == id
  {
  }
}
