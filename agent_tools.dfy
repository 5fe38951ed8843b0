/** The tools the coding agent calls, as methods of an object bound to one
    project directory on one disk. File contents and the directory tree
    live on the disk, which the write tool changes in place; the listing
    and the search walk the tree with an explicit stack, as `os.walk`
    does, and each of them is proved to return what its specification
    function says. */
module Tools {
  import opened Text
  import opened FileSystem
  import opened Walk
  import opened Listing
  import opened Search
  import opened Command

  /** The two walks differ only in pruning: a matching line in a file
      below a directory named in SKIP_DIRS is reported by the search,
      while the file tree leaves that file out. */
  lemma SkippedDirsSearchedNotListed(fs: Node, projectDir: Path, rootDir: Path, pattern: string,
                                     m: Match, k: nat)
    requires WF(fs) && Found(fs, projectDir, rootDir, pattern, m)
    requires |rootDir| <= k < |m.path| - 1 && m.path[k] in SKIP_DIRS
    ensures m in SearchResult(fs, projectDir, rootDir, pattern)
    ensures m.path !in FileTree(fs, projectDir, rootDir)
  {
    SearchMember(fs, projectDir, rootDir, pattern, m);
    FileTreeMember(fs, projectDir, rootDir, m.path);
  }

  /** The file system, as one tree whose root is `/`. */
  class Disk {
    var root: Node

    ghost predicate Valid()
      reads this
    {
      WF(root) && root.Dir?
    }

    constructor(root0: Node)
      requires WF(root0) && root0.Dir?
      ensures Valid() && root == root0
    {
      root := root0;
    }
  }

  // -----------------------------------------------------------------------
  // Steps of the walks, one loop each

  /** The pruning loop of `see_file_tree`: for each name of a copy of the
      subdirectory list, `list.remove` it from the list when it is in
      SKIP_DIRS. */
  method PruneSkipped(dirnames0: seq<Name>) returns (dirnames: seq<Name>)
    ensures dirnames == Pruned(dirnames0)
  {
    dirnames := dirnames0;
    var snapshot := dirnames0;
    var i := 0;
    while i < |snapshot|
      invariant 0 <= i <= |snapshot|
      invariant dirnames == Pruned(snapshot[..i]) + snapshot[i..]
    {
      PruneStep(snapshot, i);
      if snapshot[i] in SKIP_DIRS {
        dirnames := Remove(dirnames, snapshot[i]);
      }
      i := i + 1;
    }
    assert snapshot[..i] == snapshot && snapshot[i..] == [];
  }

  /** The listing loop of `see_file_tree`: appends `top + [nm]`, relative
      to `projectDir`, for each name `nm` in turn. */
  method AppendLevel(tree0: seq<Path>, projectDir: Path, top: Path, names: seq<Name>)
    returns (tree: seq<Path>)
    requires projectDir <= top
    ensures tree == tree0 + Under(Rel(top, projectDir), names)
  {
    tree := tree0;
    var base := Rel(top, projectDir);
    var j := 0;
    while j < |names|
      invariant 0 <= j <= |names|
      invariant tree == tree0 + Under(base, names[..j])
    {
      assert (top + [names[j]])[|projectDir|..] == base + [names[j]];
      tree := tree + [Rel(top + [names[j]], projectDir)];
      assert Under(base, names[..j + 1]) == Under(base, names[..j]) + [base + [names[j]]];
      j := j + 1;
    }
    assert names[..j] == names;
  }

  /** The body of `see_file_tree`'s loop for the directory `top` holding
      `es`: prunes the subdirectory names in place, then lists the
      remaining subdirectories followed by the files. */
  method ListDirectory(ghost fs: Node, tree0: seq<Path>, projectDir: Path, top: Path, es: seq<Entry>)
    returns (tree: seq<Path>, dirnames: seq<Name>)
    requires projectDir <= top && Lookup(fs, top) == Some(Dir(es))
    ensures dirnames == Pruned(DirNames(es))
    ensures tree == tree0 + Level(fs, projectDir, top)
  {
    dirnames := PruneSkipped(DirNames(es));
    var filenames := FileNames(es);
    tree := AppendLevel(tree0, projectDir, top, dirnames + filenames);
  }

  /** The body of `search_in_files`'s loop for the directory `top`
      holding `es`: scans its files. */
  method SearchDirectory(fs: Node, matches0: seq<Match>, projectDir: Path, top: Path, es: seq<Entry>,
                         pattern: string)
    returns (matches: seq<Match>)
    requires projectDir <= top && Lookup(fs, top) == Some(Dir(es))
    ensures matches == matches0 + DirMatches(fs, projectDir, top, pattern)
  {
    var filenames := FileNames(es);
    matches := ScanFiles(fs, matches0, projectDir, top, filenames, pattern);
  }

  /** The end of one step of `os.walk`: pushes `top + [nm]` for the names
      `nm` of `dirnames` taken in reverse, so that the walks below them
      come next, in listing order. */
  method PushReversed(ghost fs: Node, stack0: seq<Path>, projectDir: Path, top: Path,
                      dirnames: seq<Name>, ghost prune: bool)
    returns (stack: seq<Path>)
    requires projectDir <= top && AllBelow(projectDir, stack0)
    ensures AllBelow(projectDir, stack)
    ensures Pending(fs, stack, prune) == PendingUnder(fs, top, dirnames, prune) + Pending(fs, stack0, prune)
  {
    stack := stack0;
    var k := |dirnames|;
    assert dirnames[k..] == [];
    while k > 0
      invariant 0 <= k <= |dirnames|
      invariant AllBelow(projectDir, stack)
      invariant Pending(fs, stack, prune) == PendingUnder(fs, top, dirnames[k..], prune) + Pending(fs, stack0, prune)
    {
      PushStep(fs, stack, top, dirnames, k, Pending(fs, stack0, prune), prune);
      assert (top + [dirnames[k - 1]])[..|projectDir|] == top[..|projectDir|];
      stack := stack + [top + [dirnames[k - 1]]];
      k := k - 1;
    }
  }

  /** The file loop of `search_in_files` for one directory `top`: scans
      each file of `filenames` in turn. */
  method ScanFiles(fs: Node, matches0: seq<Match>, projectDir: Path, top: Path,
                   filenames: seq<Name>, pattern: string)
    returns (matches: seq<Match>)
    requires projectDir <= top
    ensures matches == matches0 + FilesMatches(fs, projectDir, top, filenames, pattern)
  {
    matches := matches0;
    var j := 0;
    while j < |filenames|
      invariant 0 <= j <= |filenames|
      invariant matches == matches0 + FilesMatches(fs, projectDir, top, filenames[..j], pattern)
    {
      FilesMatchesStep(fs, projectDir, top, filenames, j, pattern);
      AppendAssoc(matches0, FilesMatches(fs, projectDir, top, filenames[..j], pattern),
                  FileMatchesAt(fs, projectDir, top + [filenames[j]], pattern));
      matches := ScanPath(fs, matches, projectDir, top + [filenames[j]], pattern);
      j := j + 1;
    }
    assert filenames[..j] == filenames;
  }

  /** One file of the file loop of `search_in_files`: opens the file at
      `filepath` and scans it, or moves on when it cannot be opened. */
  method ScanPath(fs: Node, matches0: seq<Match>, projectDir: Path, filepath: Path, pattern: string)
    returns (matches: seq<Match>)
    requires projectDir <= filepath
    ensures matches == matches0 + FileMatchesAt(fs, projectDir, filepath, pattern)
  {
    match Lookup(fs, filepath) {
      case Some(File(data)) =>
        matches := ScanFile(matches0, Rel(filepath, projectDir), data, pattern);
      case _ =>
        // opening fails: the handler moves on to the next file
        matches := matches0;
    }
  }

  /** The line loop of `search_in_files` for one open file: reads lines
      until the end or the first failure, appending a match for each line
      that contains `pattern`. */
  method ScanFile(matches0: seq<Match>, rel: Path, data: FileData, pattern: string)
    returns (matches: seq<Match>)
    ensures matches == matches0 + FileMatches(rel, data, pattern)
  {
    matches := matches0;
    ghost var lines := ReadableLines(data);
    var i := 0;
    var reading := true;
    while reading
      invariant i <= |lines|
      invariant !reading ==> i == |lines|
      invariant matches == matches0 + LineMatches(rel, lines[..i], pattern)
      decreases |lines| - i + (if reading then 1 else 0)
    {
      match ReadLine(data, i)
      case Line(line) =>
        LineMatchesStep(rel, lines, i, pattern);
        AppendAssoc(matches0, LineMatches(rel, lines[..i], pattern), LineMatch(rel, lines, i, pattern));
        if Contains(line, pattern) {
          matches := matches + [Match(rel, i + 1, Strip(line))];
        }
        i := i + 1;
      case _ =>
        // the end of the file, or an exception that the handler answers
        // with `continue`
        reading := false;
    }
    assert lines[..i] == lines;
  }

  /** One turn of `see_file_tree`'s loop over `os.walk`: pops the top of
      the stack and, when it is a directory, lists it and pushes the
      subdirectories left after pruning. Everything yielded so far followed
      by everything still pending stays the whole walk of `absRoot`, and
      the listing stays that of the directories yielded so far. */
  method ListTurn(fs: Node, projectDir: Path, ghost absRoot: Path, stack0: seq<Path>,
                  tree0: seq<Path>, ghost visited0: seq<Path>)
    returns (stack: seq<Path>, tree: seq<Path>, ghost visited: seq<Path>)
    requires WF(fs) && stack0 != []
    requires AllBelow(projectDir, stack0) && AllBelow(projectDir, visited0)
    requires visited0 + Pending(fs, stack0, true) == VisitsAt(fs, absRoot, true)
    requires tree0 == ListingOf(fs, projectDir, visited0)
    ensures AllBelow(projectDir, stack) && AllBelow(projectDir, visited)
    ensures visited + Pending(fs, stack, true) == VisitsAt(fs, absRoot, true)
    ensures tree == ListingOf(fs, projectDir, visited)
    ensures |Pending(fs, stack, true)| < |Pending(fs, stack0, true)|
         || (|Pending(fs, stack, true)| == |Pending(fs, stack0, true)| && |stack| < |stack0|)
  {
    var top := stack0[|stack0| - 1];
    var rest := stack0[..|stack0| - 1];
    assert stack0 == rest + [top];
    match Lookup(fs, top)
    case Some(Dir(es)) =>
      ListingOfStep(fs, projectDir, visited0, top);
      var dirnames;
      tree, dirnames := ListDirectory(fs, tree0, projectDir, top, es);
      DescendedNames(es);
      stack := PushReversed(fs, rest, projectDir, top, dirnames, true);
      WalkDirStep(fs, visited0, rest, top, es, stack, VisitsAt(fs, absRoot, true), true);
      visited := visited0 + [top];
    case _ =>
      // scandir fails or `top` is not a directory: nothing is yielded
      WalkOtherStep(fs, visited0, rest, top, VisitsAt(fs, absRoot, true), true);
      stack, tree, visited := rest, tree0, visited0;
  }

  /** One turn of `search_in_files`'s loop over `os.walk`: pops the top of
      the stack and, when it is a directory, scans its files and pushes all
      its subdirectories. */
  method SearchTurn(fs: Node, projectDir: Path, ghost absRoot: Path, pattern: string, stack0: seq<Path>,
                    matches0: seq<Match>, ghost visited0: seq<Path>)
    returns (stack: seq<Path>, matches: seq<Match>, ghost visited: seq<Path>)
    requires WF(fs) && stack0 != []
    requires AllBelow(projectDir, stack0) && AllBelow(projectDir, visited0)
    requires visited0 + Pending(fs, stack0, false) == VisitsAt(fs, absRoot, false)
    requires matches0 == MatchesOf(fs, projectDir, visited0, pattern)
    ensures AllBelow(projectDir, stack) && AllBelow(projectDir, visited)
    ensures visited + Pending(fs, stack, false) == VisitsAt(fs, absRoot, false)
    ensures matches == MatchesOf(fs, projectDir, visited, pattern)
    ensures |Pending(fs, stack, false)| < |Pending(fs, stack0, false)|
         || (|Pending(fs, stack, false)| == |Pending(fs, stack0, false)| && |stack| < |stack0|)
  {
    var top := stack0[|stack0| - 1];
    var rest := stack0[..|stack0| - 1];
    assert stack0 == rest + [top];
    match Lookup(fs, top)
    case Some(Dir(es)) =>
      MatchesOfStep(fs, projectDir, visited0, top, pattern);
      matches := SearchDirectory(fs, matches0, projectDir, top, es, pattern);
      DescendedNames(es);
      stack := PushReversed(fs, rest, projectDir, top, DirNames(es), false);
      WalkDirStep(fs, visited0, rest, top, es, stack, VisitsAt(fs, absRoot, false), false);
      visited := visited0 + [top];
    case _ =>
      // scandir fails or `top` is not a directory: nothing is yielded
      WalkOtherStep(fs, visited0, rest, top, VisitsAt(fs, absRoot, false), false);
      stack, matches, visited := rest, matches0, visited0;
  }

  class AgentTools {
    /** The absolute path of the project directory; every path the tools
        are given is relative to it. */
    const projectDir: Path
    const disk: Disk

    constructor(projectDir0: Path, disk0: Disk)
      ensures projectDir == projectDir0 && disk == disk0
    {
      projectDir := projectDir0;
      disk := disk0;
    }

    /** `read_file`: the whole text of the file at `filepath`, or the error
        that opening or decoding it raises. */
    method ReadFile(filepath: Path) returns (r: Result<string>)
      ensures r == ReadAt(disk.root, projectDir + filepath)
      ensures r.Ok? <==> exists t :: Lookup(disk.root, projectDir + filepath) == Some(File(Readable(t)))
      ensures r.Ok? ==> Lookup(disk.root, projectDir + filepath) == Some(File(Readable(r.value)))
    {
      r := ReadAt(disk.root, projectDir + filepath);
    }

    /** `write_file`: creates the missing parent directories, then
        replaces or creates the file with `content`. On failure the disk is
        as it was; on success `content` reads back and nothing off the path
        changes. */
    method WriteFile(filepath: Path, content: string) returns (r: Result<()>)
      requires disk.Valid()
      modifies disk
      ensures disk.Valid()
      ensures r.Ok? <==> Write(old(disk.root), projectDir + filepath, content).Ok?
      ensures r.Ok? ==> disk.root == Write(old(disk.root), projectDir + filepath, content).value
      ensures r.Ok? ==> ReadAt(disk.root, projectDir + filepath) == Ok(content)
      ensures r.Ok? ==> forall q :: !(q <= projectDir + filepath) ==> Lookup(disk.root, q) == Lookup(old(disk.root), q)
      ensures r.Err? ==> disk.root == old(disk.root)
      ensures r.Err? ==> r.error == Write(old(disk.root), projectDir + filepath, content).error
    {
      var absPath := projectDir + filepath;
      var made := MakeDirs(disk.root, Dirname(absPath));
      if made.Err? {
        return Err(made.error);
      }
      var before := disk.root;
      MakeDirsWF(disk.root, Dirname(absPath));
      MakeDirsLookup(disk.root, Dirname(absPath), []);
      disk.root := made.value;
      var written := WriteText(disk.root, absPath, content);
      if written.Err? {
        WriteFailureChangesNothing(before, absPath, content);
        return Err(written.error);
      }
      WriteTextWF(disk.root, absPath, content);
      WriteTextLookup(disk.root, absPath, content, []);
      disk.root := written.value;
      WriteThenRead(before, absPath, content);
      WriteEffect(before, absPath, content);
      r := Ok(());
    }

    /** `see_file_tree`: every file and directory below `rootDir`, relative
        to the project directory, walking top-down and not entering the
        directories named in SKIP_DIRS. */
    method SeeFileTree(rootDir: Path) returns (tree: seq<Path>)
      requires disk.Valid()
      ensures tree == FileTree(disk.root, projectDir, rootDir)
    {
      var fs := disk.root;
      var absRoot := projectDir + rootDir;
      WalkBelowProject(fs, projectDir, rootDir, true);
      var stack := [absRoot];
      ghost var visited: seq<Path> := [];
      tree := [];
      assert Pending(fs, stack, true) == VisitsAt(fs, absRoot, true);
      while stack != []
        invariant AllBelow(projectDir, stack) && AllBelow(projectDir, visited)
        invariant visited + Pending(fs, stack, true) == VisitsAt(fs, absRoot, true)
        invariant tree == ListingOf(fs, projectDir, visited)
        decreases |Pending(fs, stack, true)|, |stack|
      {
        stack, tree, visited := ListTurn(fs, projectDir, absRoot, stack, tree, visited);
      }
      assert visited == VisitsAt(fs, absRoot, true);
    }

    /** `search_in_files`: every line containing `pattern` in every file
        below `rootDir` (directories named in SKIP_DIRS included), as
        (path relative to the project directory, line number from 1,
        stripped line). A file that fails to open or to decode contributes
        the matches found before the failure. */
    method SearchInFiles(pattern: string, rootDir: Path) returns (matches: seq<Match>)
      requires disk.Valid()
      ensures matches == SearchResult(disk.root, projectDir, rootDir, pattern)
    {
      var fs := disk.root;
      var absRoot := projectDir + rootDir;
      WalkBelowProject(fs, projectDir, rootDir, false);
      var stack := [absRoot];
      ghost var visited: seq<Path> := [];
      matches := [];
      assert Pending(fs, stack, false) == VisitsAt(fs, absRoot, false);
      while stack != []
        invariant AllBelow(projectDir, stack) && AllBelow(projectDir, visited)
        invariant visited + Pending(fs, stack, false) == VisitsAt(fs, absRoot, false)
        invariant matches == MatchesOf(fs, projectDir, visited, pattern)
        decreases |Pending(fs, stack, false)|, |stack|
      {
        stack, matches, visited := SearchTurn(fs, projectDir, absRoot, pattern, stack, matches, visited);
      }
      assert visited == VisitsAt(fs, absRoot, false);
    }

    /** `execute_bash_command`: refuses a command that mentions the
        development server; otherwise runs it through `shell` in the
        working directory with the timeout, and returns what the shell
        produced. A working directory that is not a directory, a failure to
        start the shell and the timeout are raised; the error is
        NotADirectory when a file lies on the directory's path and NotFound
        when a component is missing, as the child's `chdir` reports. `spawned` tells whether the shell was
        started at all. */
    method ExecuteBashCommand(command: string, cwd: Option<Path>,
                              shell: (string, Path, nat) -> Outcome)
      returns (r: CommandResult, spawned: bool)
      ensures Blocked(command) ==> !spawned && r == Output("", BLOCKED_MESSAGE, BLOCKED_CODE)
      ensures !Blocked(command) && !IsDirAt(disk.root, WorkingDir(projectDir, cwd)) ==> !spawned && r.Raised?
      ensures !Blocked(command) && !IsDirAt(disk.root, WorkingDir(projectDir, cwd)) ==>
        r.error == (if FileOnPath(disk.root, WorkingDir(projectDir, cwd)) then NotADirectory else NotFound)
      ensures spawned <==> !Blocked(command) && IsDirAt(disk.root, WorkingDir(projectDir, cwd))
      ensures spawned ==>
        r == match shell(command, WorkingDir(projectDir, cwd), TIMEOUT_SECONDS)
             case Completed(out, err, code) => Output(out, err, code)
             case TimedOut => Raised(Timeout)
             case SpawnFailed => Raised(Error.SpawnFailed)
    {
      if Contains(command, BLOCKED_WORD) {
        return Output("", BLOCKED_MESSAGE, BLOCKED_CODE), false;
      }
      var absCwd := WorkingDir(projectDir, cwd);
      if !IsDirAt(disk.root, absCwd) {
        return Raised(if FileOnPath(disk.root, absCwd) then NotADirectory else NotFound), false;
      }
      spawned := true;
      match shell(command, absCwd, TIMEOUT_SECONDS)
      case Completed(out, err, code) =>
        r := Output(out, err, code);
      case TimedOut =>
        r := Raised(Timeout);
      case SpawnFailed =>
        r := Raised(Error.SpawnFailed);
    }
  }
}
