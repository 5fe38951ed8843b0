/** What `see_file_tree` returns, as a specification: for each directory
    the pruned walk yields, in order, the names of its kept subdirectories
    and then of its files, each joined to the directory and made relative to
    the project directory. */
module Listing {
  import opened FileSystem
  import opened Walk

  /** What one yielded directory `d` adds to the listing. */
  function Level(fs: Node, base: Path, d: Path): seq<Path>
    requires base <= d
  {
    match Lookup(fs, d)
    case Some(Dir(es)) => Under(Rel(d, base), Pruned(DirNames(es)) + FileNames(es))
    case _ => []
  }

  /** The levels of the directories `ds`, one after the other. */
  function ListingOf(fs: Node, base: Path, ds: seq<Path>): seq<Path>
    requires AllBelow(base, ds)
    decreases |ds|
  {
    if ds == [] then []
    else ListingOf(fs, base, ds[..|ds| - 1]) + Level(fs, base, ds[|ds| - 1])
  }

  /** Walking one more directory appends its level. */
  lemma ListingOfStep(fs: Node, base: Path, ds: seq<Path>, d: Path)
    requires AllBelow(base, ds) && base <= d
    ensures AllBelow(base, ds + [d])
    ensures ListingOf(fs, base, ds + [d]) == ListingOf(fs, base, ds) + Level(fs, base, d)
  {
    assert (ds + [d])[..|ds|] == ds;
  }

  /** The list `see_file_tree(rootDir)` returns for the project directory
      `projectDir` on the tree `fs`. */
  function FileTree(fs: Node, projectDir: Path, rootDir: Path): seq<Path> {
    WalkBelowProject(fs, projectDir, rootDir, true);
    ListingOf(fs, projectDir, VisitsAt(fs, projectDir + rootDir, true))
  }

  /** The paths the listing promises: strictly below `rootDir`, existing, no
      directory between `rootDir` and the path named in SKIP_DIRS, and the
      path itself named in SKIP_DIRS only when it is a file. */
  ghost predicate Listed(fs: Node, projectDir: Path, rootDir: Path, x: Path) {
    rootDir < x
    && Lookup(fs, projectDir + x).Some?
    && (forall k :: |rootDir| <= k < |x| - 1 ==> x[k] !in SKIP_DIRS)
    && (x[|x| - 1] in SKIP_DIRS ==> IsFileAt(fs, projectDir + x))
  }

  // ---------------------------------------------------------------------
  // One level

  lemma UnderMember(b: Path, names: seq<Name>, y: Path)
    ensures y in Under(b, names) <==> |y| == |b| + 1 && y[..|b|] == b && y[|b|] in names
  {
    if |y| == |b| + 1 && y[..|b|] == b && y[|b|] in names {
      var i :| 0 <= i < |names| && names[i] == y[|b|];
      assert y == b + [names[i]];
    }
  }

  lemma UnderDistinct(b: Path, names: seq<Name>)
    requires Distinct(names)
    ensures Distinct(Under(b, names))
  {
    var u := Under(b, names);
    forall i, j | 0 <= i < j < |u| ensures u[i] != u[j] {
      assert u[i][|b|] == names[i] && u[j][|b|] == names[j];
    }
  }

  /** Every path a level adds is one name below the level's directory. */
  lemma LevelShape(fs: Node, base: Path, d: Path, y: Path)
    requires base <= d
    requires y in Level(fs, base, d)
    ensures |y| == |d| - |base| + 1 && base + y[..|y| - 1] == d
  {
    var es := Lookup(fs, d).value.entries;
    UnderMember(Rel(d, base), Pruned(DirNames(es)) + FileNames(es), y);
    assert y[..|y| - 1] == d[|base|..];
  }

  /** The entry `d + [nm]` of a directory `d` is listed exactly when it
      exists and is a file or a directory not named in SKIP_DIRS. */
  lemma LevelMember(fs: Node, base: Path, d: Path, y: Path)
    requires WF(fs) && base <= d
    ensures y in Level(fs, base, d) <==>
      |y| == |d| - |base| + 1 && base + y[..|y| - 1] == d && IsDirAt(fs, d)
      && Lookup(fs, base + y).Some?
      && (y[|y| - 1] in SKIP_DIRS ==> IsFileAt(fs, base + y))
  {
    if y in Level(fs, base, d) {
      LevelShape(fs, base, d, y);
    }
    if |y| == |d| - |base| + 1 && base + y[..|y| - 1] == d && IsDirAt(fs, d) {
      var es := Lookup(fs, d).value.entries;
      var nm := y[|y| - 1];
      LookupWF(fs, d);
      assert base + y == d + [nm];
      LookupChild(fs, d, nm);
      var names := Pruned(DirNames(es)) + FileNames(es);
      UnderMember(Rel(d, base), names, y);
      assert y[..|Rel(d, base)|] == Rel(d, base);
      PrunedSubset(DirNames(es), nm);
      NamesOfDirNames(es, nm);
    }
  }

  // ---------------------------------------------------------------------
  // The whole listing

  /** A path is in the listing of `ds` exactly when its parent is one of
      `ds` and the path is in that parent's level. */
  lemma {:induction false} ListingMember(fs: Node, base: Path, ds: seq<Path>, y: Path)
    requires AllBelow(base, ds)
    ensures y in ListingOf(fs, base, ds) <==>
      |y| >= 1 && base + y[..|y| - 1] in ds && y in Level(fs, base, base + y[..|y| - 1])
    decreases |ds|
  {
    if ds != [] {
      var last := ds[|ds| - 1];
      var init := ds[..|ds| - 1];
      assert ds == init + [last];
      ListingMember(fs, base, init, y);
      if y in Level(fs, base, last) {
        LevelShape(fs, base, last, y);
      }
    }
  }

  /** The parent of every listed path is one of the directories listed. */
  lemma ListingParent(fs: Node, base: Path, ds: seq<Path>, y: Path)
    requires AllBelow(base, ds)
    requires y in ListingOf(fs, base, ds)
    ensures |y| >= 1 && base + y[..|y| - 1] in ds
  {
    ListingMember(fs, base, ds, y);
  }

  /** The parent directory of `x` is yielded by the pruned walk from
      `rootDir` exactly when it is a directory at or below `rootDir` and no
      directory from just below `rootDir` down to it is named in SKIP_DIRS. */
  lemma ParentWalked(fs: Node, projectDir: Path, rootDir: Path, x: Path)
    requires WF(fs) && |x| >= 1
    ensures projectDir + x[..|x| - 1] in VisitsAt(fs, projectDir + rootDir, true) <==>
      rootDir <= x[..|x| - 1] && IsDirAt(fs, projectDir + x[..|x| - 1])
      && forall k :: |rootDir| <= k < |x| - 1 ==> x[k] !in SKIP_DIRS
  {
    var r := projectDir + rootDir;
    var d := projectDir + x[..|x| - 1];
    VisitsAtMember(fs, r, true, d);
    PrefixCancel(projectDir, rootDir, x[..|x| - 1]);
    assert (forall k :: |r| <= k < |d| ==> d[k] !in SKIP_DIRS)
       <==> (forall k :: |rootDir| <= k < |x| - 1 ==> x[k] !in SKIP_DIRS)
    by {
      forall k | |rootDir| <= k < |x| - 1 ensures d[k + |projectDir|] == x[k] { }
      forall k | |r| <= k < |d| ensures d[k] == x[k - |projectDir|] { }
    }
  }

  /** `x` is in its parent's level exactly when it exists and is not a
      directory named in SKIP_DIRS. */
  lemma InParentLevel(fs: Node, projectDir: Path, x: Path)
    requires WF(fs) && |x| >= 1
    ensures x in Level(fs, projectDir, projectDir + x[..|x| - 1]) <==>
      Lookup(fs, projectDir + x).Some?
      && (x[|x| - 1] in SKIP_DIRS ==> IsFileAt(fs, projectDir + x))
  {
    var d := projectDir + x[..|x| - 1];
    LevelMember(fs, projectDir, d, x);
    assert projectDir + x == d + [x[|x| - 1]];
    LookupAppend(fs, d, [x[|x| - 1]]);
  }

  /** `see_file_tree` lists exactly the paths `Listed` describes: everything
      below `rootDir`, except what lies inside a directory named in
      SKIP_DIRS and such directories themselves; a file whose name is in
      SKIP_DIRS is still listed. */
  lemma FileTreeMember(fs: Node, projectDir: Path, rootDir: Path, x: Path)
    requires WF(fs)
    ensures x in FileTree(fs, projectDir, rootDir) <==> Listed(fs, projectDir, rootDir, x)
  {
    WalkBelowProject(fs, projectDir, rootDir, true);
    ListingMember(fs, projectDir, VisitsAt(fs, projectDir + rootDir, true), x);
    if |x| >= 1 {
      ParentWalked(fs, projectDir, rootDir, x);
      InParentLevel(fs, projectDir, x);
      assert rootDir < x <==> rootDir <= x[..|x| - 1];
      assert projectDir + x == (projectDir + x[..|x| - 1]) + [x[|x| - 1]];
      LookupAppend(fs, projectDir + x[..|x| - 1], [x[|x| - 1]]);
    }
  }

  /** No path appears twice in the listing. */
  lemma {:induction false} ListingDistinct(fs: Node, base: Path, ds: seq<Path>)
    requires WF(fs)
    requires AllBelow(base, ds)
    requires Distinct(ds)
    ensures Distinct(ListingOf(fs, base, ds))
    decreases |ds|
  {
    if ds != [] {
      var last := ds[|ds| - 1];
      var init := ds[..|ds| - 1];
      ListingDistinct(fs, base, init);
      if IsDirAt(fs, last) {
        var es := Lookup(fs, last).value.entries;
        LookupWF(fs, last);
        LevelNamesDistinct(es, true);
        UnderDistinct(Rel(last, base), Pruned(DirNames(es)) + FileNames(es));
      }
      forall y | y in ListingOf(fs, base, init) ensures y !in Level(fs, base, last) {
        ListingParent(fs, base, init, y);
        if y in Level(fs, base, last) {
          LevelShape(fs, base, last, y);
        }
      }
      DistinctAppend(ListingOf(fs, base, init), Level(fs, base, last));
    }
  }

  /** A path listed later that is a proper prefix of one listed earlier
      would make its parent directory a proper prefix of the earlier one's
      parent, yielded after it. */
  lemma LaterPrefixParents(base: Path, d: Path, e: Path, x: Path, y: Path)
    requires |x| >= 1 && |y| >= 1
    requires base + x[..|x| - 1] == d && base + y[..|y| - 1] == e
    requires y < x
    ensures e < d
  {
    assert y <= x[..|x| - 1];
    assert base + y <= d;
    assert e < base + y;
  }

  /** The listing is top-down: a directory is listed before everything
      inside it. */
  lemma {:induction false} ListingTopDown(fs: Node, base: Path, ds: seq<Path>)
    requires AllBelow(base, ds)
    requires TopDown(ds)
    ensures TopDown(ListingOf(fs, base, ds))
    decreases |ds|
  {
    if ds != [] {
      var last := ds[|ds| - 1];
      var init := ds[..|ds| - 1];
      assert TopDown(init) by {
        forall i, j | 0 <= i < j < |init| ensures !(init[j] < init[i]) {
          assert init[i] == ds[i] && init[j] == ds[j];
        }
      }
      ListingTopDown(fs, base, init);
      var level := Level(fs, base, last);
      assert TopDown(level) by {
        forall i, j | 0 <= i < j < |level| ensures !(level[j] < level[i]) {
          assert level[i] in level && level[j] in level;
          LevelShape(fs, base, last, level[i]);
          LevelShape(fs, base, last, level[j]);
        }
      }
      forall x, y | x in ListingOf(fs, base, init) && y in level ensures !(y < x) {
        ListingParent(fs, base, init, x);
        LevelShape(fs, base, last, y);
        var i :| 0 <= i < |init| && init[i] == base + x[..|x| - 1];
        assert !(ds[|ds| - 1] < ds[i]);
        if y < x {
          LaterPrefixParents(base, init[i], last, x, y);
        }
      }
      TopDownAppend(ListingOf(fs, base, init), level);
    }
  }

  /** `see_file_tree` lists no path twice, and lists every directory before
      the paths inside it. */
  lemma FileTreeOrder(fs: Node, projectDir: Path, rootDir: Path)
    requires WF(fs)
    ensures Distinct(FileTree(fs, projectDir, rootDir))
    ensures TopDown(FileTree(fs, projectDir, rootDir))
  {
    var r := projectDir + rootDir;
    WalkBelowProject(fs, projectDir, rootDir, true);
    VisitsAtDistinct(fs, r, true);
    ListingDistinct(fs, projectDir, VisitsAt(fs, r, true));
    ListingTopDown(fs, projectDir, VisitsAt(fs, r, true));
  }
}
