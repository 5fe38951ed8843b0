/** What `search_in_files` returns, as a specification: for each directory
    the unpruned walk yields, in order, for each of its files in listing
    order, the lines of that file which contain the pattern, numbered from
    1 and stripped of surrounding whitespace. Reading a file stops at the
    first line that cannot be decoded; the matches found before that point
    are kept. */
module Search {
  import opened Text
  import opened FileSystem
  import opened Walk

  /** One hit: the file's path relative to the project directory, the line
      number counted from 1, and the stripped line. */
  datatype Match = Match(path: Path, line: nat, text: string)

  /** What asking an open file for its next line gives. */
  datatype LineRead = Line(text: string) | EndOfFile | ReadError

  /** The lines that can be read from a file before reading it fails or
      reaches the end. */
  function ReadableLines(data: FileData): seq<string> {
    var all := Lines(data.text);
    match data
    case Readable(_) => all
    case Unreadable(_, k) => if k < |all| then all[..k] else all
  }

  /** A file that fails to decode gives the first of its lines, no more
      than it can decode, and all of them when it ends before the failure. */
  lemma ReadableLinesSpec(data: FileData)
    ensures data.Unreadable? ==>
      ReadableLines(data) <= Lines(data.text) && |ReadableLines(data)| <= data.readableLines
    ensures data.Unreadable? && |ReadableLines(data)| < data.readableLines ==>
      ReadableLines(data) == Lines(data.text)
  {
  }

  /** Reading line `i` (counted from 0) of an open file. */
  function ReadLine(data: FileData, i: nat): (r: LineRead)
    ensures r.Line? <==> i < |ReadableLines(data)|
    ensures r.Line? ==> r.text == ReadableLines(data)[i]
    ensures r.ReadError? ==> data.Unreadable?
  {
    var all := Lines(data.text);
    if data.Unreadable? && i >= data.readableLines then ReadError
    else if i < |all| then Line(all[i])
    else EndOfFile
  }

  /** The matches among `lines`, the first lines of the file at `path`. */
  function LineMatches(path: Path, lines: seq<string>, pattern: string): seq<Match>
    decreases |lines|
  {
    if lines == [] then []
    else
      var line := lines[|lines| - 1];
      LineMatches(path, lines[..|lines| - 1], pattern)
      + (if Contains(line, pattern) then [Match(path, |lines|, Strip(line))] else [])
  }

  /** The match line `i` (counted from 0) of `lines` contributes, if any. */
  function LineMatch(path: Path, lines: seq<string>, i: nat, pattern: string): seq<Match>
    requires i < |lines|
  {
    if Contains(lines[i], pattern) then [Match(path, i + 1, Strip(lines[i]))] else []
  }

  /** Reading one more line appends that line's match, if any. */
  lemma LineMatchesStep(path: Path, lines: seq<string>, i: nat, pattern: string)
    requires i < |lines|
    ensures LineMatches(path, lines[..i + 1], pattern)
         == LineMatches(path, lines[..i], pattern) + LineMatch(path, lines, i, pattern)
  {
    assert lines[..i + 1][..i] == lines[..i];
  }

  /** The matches in the file at `path` holding `data`. */
  function FileMatches(path: Path, data: FileData, pattern: string): seq<Match> {
    LineMatches(path, ReadableLines(data), pattern)
  }

  /** The matches in the files `d + [nm]`, for the names `nm` of `names` in
      turn; paths are made relative to `base`. */
  function FilesMatches(fs: Node, base: Path, d: Path, names: seq<Name>, pattern: string): seq<Match>
    requires base <= d
    decreases |names|
  {
    if names == [] then []
    else
      var path := d + [names[|names| - 1]];
      FilesMatches(fs, base, d, names[..|names| - 1], pattern)
      + FileMatchesAt(fs, base, path, pattern)
  }

  /** The matches in the file at `path`, none when there is no file
      there; the path is made relative to `base`. */
  function FileMatchesAt(fs: Node, base: Path, path: Path, pattern: string): seq<Match>
    requires base <= path
  {
    match Lookup(fs, path)
    case Some(File(data)) => FileMatches(Rel(path, base), data, pattern)
    case _ => []
  }

  /** Scanning one more file appends that file's matches. */
  lemma FilesMatchesStep(fs: Node, base: Path, d: Path, names: seq<Name>, j: nat, pattern: string)
    requires base <= d && j < |names|
    ensures FilesMatches(fs, base, d, names[..j + 1], pattern)
         == FilesMatches(fs, base, d, names[..j], pattern)
            + FileMatchesAt(fs, base, d + [names[j]], pattern)
  {
    assert names[..j + 1][..j] == names[..j];
  }

  /** The matches in the files directly inside directory `d`. */
  function DirMatches(fs: Node, base: Path, d: Path, pattern: string): seq<Match>
    requires base <= d
  {
    match Lookup(fs, d)
    case Some(Dir(es)) => FilesMatches(fs, base, d, FileNames(es), pattern)
    case _ => []
  }

  /** The matches in the directories `ds`, one after the other. */
  function MatchesOf(fs: Node, base: Path, ds: seq<Path>, pattern: string): seq<Match>
    requires AllBelow(base, ds)
    decreases |ds|
  {
    if ds == [] then []
    else MatchesOf(fs, base, ds[..|ds| - 1], pattern) + DirMatches(fs, base, ds[|ds| - 1], pattern)
  }

  /** Walking one more directory appends the matches in its files. */
  lemma MatchesOfStep(fs: Node, base: Path, ds: seq<Path>, d: Path, pattern: string)
    requires AllBelow(base, ds) && base <= d
    ensures AllBelow(base, ds + [d])
    ensures MatchesOf(fs, base, ds + [d], pattern) == MatchesOf(fs, base, ds, pattern) + DirMatches(fs, base, d, pattern)
  {
    assert (ds + [d])[..|ds|] == ds;
  }

  /** The list `search_in_files(pattern, rootDir)` returns for the project
      directory `projectDir` on the tree `fs`. */
  function SearchResult(fs: Node, projectDir: Path, rootDir: Path, pattern: string): seq<Match> {
    WalkBelowProject(fs, projectDir, rootDir, false);
    MatchesOf(fs, projectDir, VisitsAt(fs, projectDir + rootDir, false), pattern)
  }

  /** The matches the search promises: in a file strictly below `rootDir`
      (below a directory named in SKIP_DIRS too), on a line that can be
      read, containing the pattern, stripped. */
  ghost predicate Found(fs: Node, projectDir: Path, rootDir: Path, pattern: string, m: Match) {
    rootDir < m.path
    && IsFileAt(fs, projectDir + m.path)
    && OnMatchingLine(m, ReadableLines(Lookup(fs, projectDir + m.path).value.data), pattern)
  }

  /** `m` reports a line of `lines` that contains the pattern, with its
      number counted from 1 and its stripped text. */
  ghost predicate OnMatchingLine(m: Match, lines: seq<string>, pattern: string) {
    1 <= m.line <= |lines|
    && Contains(lines[m.line - 1], pattern)
    && m.text == Strip(lines[m.line - 1])
  }

  /** Within one path, line numbers strictly increase. */
  ghost predicate LinesIncrease(ms: seq<Match>) {
    forall i, j :: 0 <= i < j < |ms| && ms[i].path == ms[j].path ==> ms[i].line < ms[j].line
  }

  // ---------------------------------------------------------------------
  // One file

  /** A match is reported for exactly the lines that contain the pattern,
      with the right number and the stripped text. */
  lemma {:induction false} LineMatchesMember(path: Path, lines: seq<string>, pattern: string, m: Match)
    ensures m in LineMatches(path, lines, pattern) <==>
      m.path == path && OnMatchingLine(m, lines, pattern)
    decreases |lines|
  {
    if lines != [] {
      var init := lines[..|lines| - 1];
      var line := lines[|lines| - 1];
      var extra := if Contains(line, pattern) then [Match(path, |lines|, Strip(line))] else [];
      assert LineMatches(path, lines, pattern) == LineMatches(path, init, pattern) + extra;
      LineMatchesMember(path, init, pattern, m);
      if 1 <= m.line <= |init| {
        assert init[m.line - 1] == lines[m.line - 1];
      }
      if m.line == |lines| {
        assert lines[m.line - 1] == line;
      }
    }
  }

  /** Every match lies in the file at `path`, on one of `lines`. */
  lemma {:induction false} LineMatchesBound(path: Path, lines: seq<string>, pattern: string)
    ensures forall m | m in LineMatches(path, lines, pattern) :: m.path == path && 1 <= m.line <= |lines|
    decreases |lines|
  {
    if lines != [] {
      LineMatchesBound(path, lines[..|lines| - 1], pattern);
    }
  }

  /** Matches within a file come in increasing line order. */
  lemma {:induction false} LineMatchesIncrease(path: Path, lines: seq<string>, pattern: string)
    ensures forall i, j :: 0 <= i < j < |LineMatches(path, lines, pattern)| ==>
      LineMatches(path, lines, pattern)[i].line < LineMatches(path, lines, pattern)[j].line
    decreases |lines|
  {
    if lines != [] {
      var init := lines[..|lines| - 1];
      var a := LineMatches(path, init, pattern);
      var r := LineMatches(path, lines, pattern);
      LineMatchesIncrease(path, init, pattern);
      LineMatchesBound(path, init, pattern);
      assert forall i :: 0 <= i < |a| ==> r[i] == a[i] && a[i] in a;
    }
  }

  /** When every line contains the pattern, each line gives exactly one
      match, in order. */
  lemma {:induction false} AllLinesMatch(path: Path, lines: seq<string>, pattern: string)
    requires forall i :: 0 <= i < |lines| ==> Contains(lines[i], pattern)
    ensures |LineMatches(path, lines, pattern)| == |lines|
    ensures forall i :: 0 <= i < |lines| ==>
      LineMatches(path, lines, pattern)[i] == Match(path, i + 1, Strip(lines[i]))
    decreases |lines|
  {
    if lines != [] {
      var init := lines[..|lines| - 1];
      var line := lines[|lines| - 1];
      assert forall i :: 0 <= i < |init| ==> init[i] == lines[i];
      AllLinesMatch(path, init, pattern);
      var a := LineMatches(path, init, pattern);
      var r := LineMatches(path, lines, pattern);
      assert Contains(line, pattern);
      assert r == a + [Match(path, |lines|, Strip(line))];
      forall i | 0 <= i < |lines| ensures r[i] == Match(path, i + 1, Strip(lines[i])) {
        if i < |init| {
          assert r[i] == a[i];
          assert a[i] == Match(path, i + 1, Strip(init[i]));
        } else {
          assert r[i] == Match(path, |lines|, Strip(line));
        }
      }
    }
  }

  /** An empty pattern matches every readable line, once each. */
  lemma EmptyPatternMatchesAll(path: Path, lines: seq<string>)
    ensures |LineMatches(path, lines, [])| == |lines|
    ensures forall i :: 0 <= i < |lines| ==> LineMatches(path, lines, [])[i] == Match(path, i + 1, Strip(lines[i]))
  {
    forall i | 0 <= i < |lines| ensures Contains(lines[i], []) {
      EmptyPatternEverywhere(lines[i]);
    }
    AllLinesMatch(path, lines, []);
  }

  /** The matches in a prefix of the lines are a prefix of the matches. */
  lemma {:induction false} LineMatchesPrefix(path: Path, lines: seq<string>, k: nat, pattern: string)
    requires k <= |lines|
    ensures LineMatches(path, lines[..k], pattern) <= LineMatches(path, lines, pattern)
    decreases |lines|
  {
    if k < |lines| {
      var init := lines[..|lines| - 1];
      assert lines[..k] == init[..k];
      LineMatchesPrefix(path, init, k, pattern);
    } else {
      assert lines[..k] == lines;
    }
  }

  /** A file that fails to decode after its first `k` lines contributes
      the matches of the readable version that lie on those lines, and
      nothing from the lines after them. */
  lemma PartialReadKeepsEarlierMatches(path: Path, t: string, k: nat, pattern: string)
    ensures FileMatches(path, Unreadable(t, k), pattern) <= FileMatches(path, Readable(t), pattern)
    ensures forall m | m in FileMatches(path, Unreadable(t, k), pattern) :: m.line <= k
  {
    var all := Lines(t);
    var ls := ReadableLines(Unreadable(t, k));
    LineMatchesPrefix(path, all, |ls|, pattern);
    assert all[..|ls|] == ls;
    forall m | m in FileMatches(path, Unreadable(t, k), pattern) ensures m.line <= k {
      LineMatchesMember(path, ls, pattern, m);
    }
  }

  // ---------------------------------------------------------------------
  // One directory

  lemma LinesIncreaseAppend(a: seq<Match>, b: seq<Match>)
    requires LinesIncrease(a) && LinesIncrease(b)
    requires forall x, y :: x in a && y in b ==> x.path != y.path
    ensures LinesIncrease(a + b)
  {
    forall i, j | 0 <= i < j < |a + b|
      ensures (a + b)[i].path == (a + b)[j].path ==> (a + b)[i].line < (a + b)[j].line
    {
      if i < |a| && j >= |a| {
        assert (a + b)[i] in a && (a + b)[j] in b;
      }
    }
  }

  /** The matches in the file at `path` carry its relative path. */
  lemma FileMatchesAtMember(fs: Node, base: Path, path: Path, pattern: string, m: Match)
    requires base <= path
    ensures m in FileMatchesAt(fs, base, path, pattern) <==>
      m.path == Rel(path, base) && IsFileAt(fs, path)
      && m in FileMatches(m.path, Lookup(fs, path).value.data, pattern)
  {
    if IsFileAt(fs, path) {
      var data := Lookup(fs, path).value.data;
      LineMatchesMember(Rel(path, base), ReadableLines(data), pattern, m);
    }
  }

  /** Which file of `names` inside `d` a match belongs to. */
  lemma {:induction false} FilesMatchesMember(fs: Node, base: Path, d: Path, names: seq<Name>, pattern: string, m: Match)
    requires base <= d
    ensures m in FilesMatches(fs, base, d, names, pattern) <==>
      |m.path| == |d| - |base| + 1 && base + m.path[..|m.path| - 1] == d
      && m.path[|m.path| - 1] in names
      && IsFileAt(fs, base + m.path)
      && m in FileMatches(m.path, Lookup(fs, base + m.path).value.data, pattern)
    decreases |names|
  {
    if names != [] {
      var init := names[..|names| - 1];
      var nm := names[|names| - 1];
      var path := d + [nm];
      FilesMatchesMember(fs, base, d, init, pattern, m);
      FileMatchesAtMember(fs, base, path, pattern, m);
      RelChild(base, d, nm, m.path);
      assert FilesMatches(fs, base, d, names, pattern)
          == FilesMatches(fs, base, d, init, pattern) + FileMatchesAt(fs, base, path, pattern);
      assert names == init + [nm];
      assert m.path == Rel(path, base) ==> base + m.path == path;
    }
  }

  /** Matches from different files have different paths, and matches in
      one file come in line order. */
  lemma {:induction false} FilesMatchesIncrease(fs: Node, base: Path, d: Path, names: seq<Name>, pattern: string)
    requires base <= d
    requires Distinct(names)
    ensures LinesIncrease(FilesMatches(fs, base, d, names, pattern))
    decreases |names|
  {
    if names != [] {
      var init := names[..|names| - 1];
      var nm := names[|names| - 1];
      var path := d + [nm];
      assert Distinct(init) by {
        forall i, j | 0 <= i < j < |init| ensures init[i] != init[j] {
          assert init[i] == names[i] && init[j] == names[j];
        }
      }
      FilesMatchesIncrease(fs, base, d, init, pattern);
      var last := FileMatchesAt(fs, base, path, pattern);
      if IsFileAt(fs, path) {
        LineMatchesIncrease(Rel(path, base), ReadableLines(Lookup(fs, path).value.data), pattern);
      }
      forall x, y | x in FilesMatches(fs, base, d, init, pattern) && y in last ensures x.path != y.path {
        FilesMatchesMember(fs, base, d, init, pattern, x);
        LineMatchesMember(Rel(path, base), ReadableLines(Lookup(fs, path).value.data), pattern, y);
        assert y.path[|y.path| - 1] == nm;
        assert nm !in init by {
          forall i | 0 <= i < |init| ensures init[i] != nm {
            assert init[i] == names[i];
          }
        }
      }
      LinesIncreaseAppend(FilesMatches(fs, base, d, init, pattern), last);
    }
  }

  /** A match is reported for directory `d` exactly when its file lies
      directly inside `d` and the match is one of that file's. */
  lemma DirMatchesMember(fs: Node, base: Path, d: Path, pattern: string, m: Match)
    requires WF(fs) && base <= d
    ensures m in DirMatches(fs, base, d, pattern) <==>
      |m.path| == |d| - |base| + 1 && base + m.path[..|m.path| - 1] == d
      && IsFileAt(fs, base + m.path)
      && m in FileMatches(m.path, Lookup(fs, base + m.path).value.data, pattern)
  {
    var inside := |m.path| == |d| - |base| + 1 && base + m.path[..|m.path| - 1] == d;
    if inside {
      var nm := m.path[|m.path| - 1];
      assert base + m.path == d + [nm];
      LookupChild(fs, d, nm);
    }
    if IsDirAt(fs, d) {
      var es := Lookup(fs, d).value.entries;
      LookupWF(fs, d);
      FilesMatchesMember(fs, base, d, FileNames(es), pattern, m);
      if inside {
        NamesOfDirNames(es, m.path[|m.path| - 1]);
      }
    } else {
      assert DirMatches(fs, base, d, pattern) == [];
      assert inside ==> !IsFileAt(fs, base + m.path);
    }
  }

  lemma DirMatchesIncrease(fs: Node, base: Path, d: Path, pattern: string)
    requires WF(fs) && base <= d
    ensures LinesIncrease(DirMatches(fs, base, d, pattern))
  {
    if IsDirAt(fs, d) {
      var es := Lookup(fs, d).value.entries;
      LookupWF(fs, d);
      DirNamesDistinct(es);
      FilesMatchesIncrease(fs, base, d, FileNames(es), pattern);
    }
  }

  lemma DirMatchesShape(fs: Node, base: Path, d: Path, pattern: string, m: Match)
    requires WF(fs) && base <= d
    requires m in DirMatches(fs, base, d, pattern)
    ensures |m.path| >= 1 && base + m.path[..|m.path| - 1] == d
  {
    DirMatchesMember(fs, base, d, pattern, m);
  }

  // ---------------------------------------------------------------------
  // The whole search

  lemma {:induction false} MatchesOfMember(fs: Node, base: Path, ds: seq<Path>, pattern: string, m: Match)
    requires WF(fs) && AllBelow(base, ds)
    ensures m in MatchesOf(fs, base, ds, pattern) <==>
      |m.path| >= 1 && base + m.path[..|m.path| - 1] in ds
      && m in DirMatches(fs, base, base + m.path[..|m.path| - 1], pattern)
    decreases |ds|
  {
    if ds != [] {
      var last := ds[|ds| - 1];
      var init := ds[..|ds| - 1];
      assert ds == init + [last];
      MatchesOfMember(fs, base, init, pattern, m);
      if m in DirMatches(fs, base, last, pattern) {
        DirMatchesShape(fs, base, last, pattern, m);
      }
    }
  }

  lemma {:induction false} MatchesOfIncrease(fs: Node, base: Path, ds: seq<Path>, pattern: string)
    requires WF(fs) && AllBelow(base, ds) && Distinct(ds)
    ensures LinesIncrease(MatchesOf(fs, base, ds, pattern))
    decreases |ds|
  {
    if ds != [] {
      var last := ds[|ds| - 1];
      var init := ds[..|ds| - 1];
      MatchesOfIncrease(fs, base, init, pattern);
      DirMatchesIncrease(fs, base, last, pattern);
      forall x, y | x in MatchesOf(fs, base, init, pattern) && y in DirMatches(fs, base, last, pattern)
        ensures x.path != y.path
      {
        MatchesOfMember(fs, base, init, pattern, x);
        DirMatchesShape(fs, base, last, pattern, y);
        assert last !in init by {
          forall i | 0 <= i < |init| ensures init[i] != last {
            assert init[i] == ds[i];
          }
        }
      }
      LinesIncreaseAppend(MatchesOf(fs, base, init, pattern), DirMatches(fs, base, last, pattern));
    }
  }

  /** The directory holding file `x` is yielded by the unpruned walk
      from `rootDir` exactly when it is a directory at or below `rootDir`. */
  lemma ParentScanned(fs: Node, projectDir: Path, rootDir: Path, x: Path)
    requires WF(fs) && |x| >= 1
    ensures projectDir + x[..|x| - 1] in VisitsAt(fs, projectDir + rootDir, false) <==>
      rootDir < x && IsDirAt(fs, projectDir + x[..|x| - 1])
  {
    var d := projectDir + x[..|x| - 1];
    VisitsAtMember(fs, projectDir + rootDir, false, d);
    PrefixCancel(projectDir, rootDir, x[..|x| - 1]);
    assert rootDir < x <==> rootDir <= x[..|x| - 1];
  }

  /** The matches reported for the directory holding `x` that lie in `x`
      are the matches `Found` describes, less the condition on `rootDir`. */
  lemma InParentMatches(fs: Node, projectDir: Path, pattern: string, m: Match)
    requires WF(fs) && |m.path| >= 1
    ensures IsFileAt(fs, projectDir + m.path) ==> IsDirAt(fs, projectDir + m.path[..|m.path| - 1])
    ensures m in DirMatches(fs, projectDir, projectDir + m.path[..|m.path| - 1], pattern) <==>
      IsFileAt(fs, projectDir + m.path)
      && OnMatchingLine(m, ReadableLines(Lookup(fs, projectDir + m.path).value.data), pattern)
  {
    var x := m.path;
    var d := projectDir + x[..|x| - 1];
    DirMatchesMember(fs, projectDir, d, pattern, m);
    assert projectDir + x == d + [x[|x| - 1]];
    LookupAppend(fs, d, [x[|x| - 1]]);
    if IsFileAt(fs, projectDir + x) {
      LineMatchesMember(x, ReadableLines(Lookup(fs, projectDir + x).value.data), pattern, m);
    }
  }

  /** `search_in_files` reports exactly the matches `Found` describes:
      every readable line containing the pattern, in every file below
      `rootDir`, including files inside directories named in SKIP_DIRS. */
  lemma SearchMember(fs: Node, projectDir: Path, rootDir: Path, pattern: string, m: Match)
    requires WF(fs)
    ensures m in SearchResult(fs, projectDir, rootDir, pattern) <==> Found(fs, projectDir, rootDir, pattern, m)
  {
    var ds := VisitsAt(fs, projectDir + rootDir, false);
    WalkBelowProject(fs, projectDir, rootDir, false);
    assert SearchResult(fs, projectDir, rootDir, pattern) == MatchesOf(fs, projectDir, ds, pattern);
    MatchesOfMember(fs, projectDir, ds, pattern, m);
    if |m.path| >= 1 {
      var d := projectDir + m.path[..|m.path| - 1];
      ParentScanned(fs, projectDir, rootDir, m.path);
      InParentMatches(fs, projectDir, pattern, m);
      assert Found(fs, projectDir, rootDir, pattern, m) <==>
        rootDir < m.path && IsDirAt(fs, d) && m in DirMatches(fs, projectDir, d, pattern);
    }
  }

  /** Within the search results, the matches of one file come in
      increasing line order, so no line is reported twice. */
  lemma SearchOrder(fs: Node, projectDir: Path, rootDir: Path, pattern: string)
    requires WF(fs)
    ensures LinesIncrease(SearchResult(fs, projectDir, rootDir, pattern))
  {
    WalkBelowProject(fs, projectDir, rootDir, false);
    VisitsAtDistinct(fs, projectDir + rootDir, false);
    MatchesOfIncrease(fs, projectDir, VisitsAt(fs, projectDir + rootDir, false), pattern);
  }
}
