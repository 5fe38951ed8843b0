/** The top-down directory walk (`os.walk(top)`) that both the tree listing
    and the search are built on, as CPython runs it: a stack of directories
    still to visit; the directory on top is popped, listed and split into
    subdirectory names and file names, handed to the caller, and then the
    subdirectory names that the caller left in the list are pushed in
    reverse, so that they are visited in listing order. The caller prunes by
    removing names from the subdirectory list before the walk descends.

    This module gives the order in which directories are yielded and the
    facts about it that the tools rely on. */
module Walk {
  import opened FileSystem

  /** Directory names the tree listing does not descend into or list. */
  const SKIP_DIRS: set<Name> := {
    ".venv",
    "__pycache__",
    ".git",
    ".pytest_cache",
    ".mypy_cache",
    ".coverage",
    "node_modules",
    ".DS_Store"
  }

  // ---------------------------------------------------------------------
  // Listing one directory

  /** The names of the entries that are directories, in listing order. */
  function DirNames(es: seq<Entry>): seq<Name> {
    if es == [] then []
    else (if es[0].node.Dir? then [es[0].name] else []) + DirNames(es[1..])
  }

  /** The names of the entries that are files, in listing order. */
  function FileNames(es: seq<Entry>): seq<Name> {
    if es == [] then []
    else (if es[0].node.File? then [es[0].name] else []) + FileNames(es[1..])
  }

  /** `names` without those in SKIP_DIRS, order kept. */
  function Pruned(names: seq<Name>): seq<Name> {
    if names == [] then []
    else (if names[0] in SKIP_DIRS then [] else [names[0]]) + Pruned(names[1..])
  }

  /** Python's `list.remove(x)`: drops the first occurrence of `x`. When
      `x` is absent this returns `xs` unchanged, where Python raises
      ValueError; the pruning loop never reaches that case, since it removes
      only names taken from a snapshot of a list without repeated names. */
  function Remove(xs: seq<Name>, x: Name): seq<Name> {
    if xs == [] then []
    else if xs[0] == x then xs[1..]
    else [xs[0]] + Remove(xs[1..], x)
  }

  /** The paths `base + [nm]` for the names `nm` of `names`, in order. */
  function Under(base: Path, names: seq<Name>): (r: seq<Path>)
    ensures |r| == |names|
    ensures forall i :: 0 <= i < |names| ==> r[i] == base + [names[i]]
  {
    seq(|names|, i requires 0 <= i < |names| => base + [names[i]])
  }

  /** `p` relative to `base`, as `os.path.relpath` gives it for a path
      below `base`. */
  function Rel(p: Path, base: Path): Path
    requires base <= p
  {
    p[|base|..]
  }

  /** The relative path of the entry `nm` of `d` is the relative path of
      `d` followed by `nm`, and no other path is. */
  lemma RelChild(base: Path, d: Path, nm: Name, p: Path)
    requires base <= d
    ensures p == Rel(d + [nm], base) <==>
      |p| == |d| - |base| + 1 && base + p[..|p| - 1] == d && p[|p| - 1] == nm
  {
    if |p| == |d| - |base| + 1 && base + p[..|p| - 1] == d && p[|p| - 1] == nm {
      assert p == p[..|p| - 1] + [nm];
      assert (d + [nm])[|base|..] == d[|base|..] + [nm];
    }
  }

  ghost predicate Distinct<T>(s: seq<T>) {
    forall i, j :: 0 <= i < j < |s| ==> s[i] != s[j]
  }

  /** No path is preceded by one of its own descendants. */
  ghost predicate TopDown(s: seq<Path>) {
    forall i, j :: 0 <= i < j < |s| ==> !(s[j] < s[i])
  }

  // ---------------------------------------------------------------------
  // The order in which the walk yields directories

  /** Whether the walk goes into entry `e`: it must be a directory, and
      when the caller prunes, its name must not be in SKIP_DIRS. */
  predicate Descends(e: Entry, prune: bool) {
    e.node.Dir? && !(prune && e.name in SKIP_DIRS)
  }

  /** The directories yielded for the tree `n` found at path `d`, in order:
      `d` itself, then the walk of each subdirectory it descends into, in
      listing order. */
  function Visits(d: Path, n: Node, prune: bool): seq<Path>
    decreases n
  {
    match n
    case File(_) => []
    case Dir(es) => [d] + VisitsSeq(d, es, prune)
  }

  function VisitsSeq(d: Path, es: seq<Entry>, prune: bool): seq<Path>
    decreases es
  {
    if es == [] then []
    else
      (if Descends(es[0], prune) then Visits(d + [es[0].name], es[0].node, prune) else [])
      + VisitsSeq(d, es[1..], prune)
  }

  /** The directories yielded by `os.walk(p)`: nothing when `p` is missing
      or is not a directory (the listing error is ignored). */
  function VisitsAt(fs: Node, p: Path, prune: bool): seq<Path> {
    match Lookup(fs, p)
    case None => []
    case Some(n) => Visits(p, n, prune)
  }

  /** The directories still to be yielded by a walk whose stack is `stack`
      (top last). */
  function Pending(fs: Node, stack: seq<Path>, prune: bool): seq<Path>
    decreases |stack|
  {
    if stack == [] then []
    else VisitsAt(fs, stack[|stack| - 1], prune) + Pending(fs, stack[..|stack| - 1], prune)
  }

  /** The directories yielded by walking `d + [nm]` for each `nm` of
      `names` in turn. */
  function PendingUnder(fs: Node, d: Path, names: seq<Name>, prune: bool): seq<Path> {
    if names == [] then []
    else VisitsAt(fs, d + [names[0]], prune) + PendingUnder(fs, d, names[1..], prune)
  }

  /** The names of the entries the walk descends into, in listing order. */
  function Descended(es: seq<Entry>, prune: bool): seq<Name> {
    if es == [] then []
    else (if Descends(es[0], prune) then [es[0].name] else []) + Descended(es[1..], prune)
  }

  // ---------------------------------------------------------------------
  // Lists of names

  lemma {:induction false} PrunedAppend(a: seq<Name>, b: seq<Name>)
    ensures Pruned(a + b) == Pruned(a) + Pruned(b)
  {
    if a != [] {
      assert (a + b)[0] == a[0] && (a + b)[1..] == a[1..] + b;
      PrunedAppend(a[1..], b);
    } else {
      assert a + b == b;
    }
  }

  lemma {:induction false} PrunedExcludes(a: seq<Name>, x: Name)
    requires x in SKIP_DIRS
    ensures x !in Pruned(a)
  {
    if a != [] {
      PrunedExcludes(a[1..], x);
    }
  }

  /** `list.remove(x)` on a list whose first `x` follows the prefix `a`
      takes out exactly that `x`. */
  lemma {:induction false} RemoveAfter(a: seq<Name>, x: Name, b: seq<Name>)
    requires x !in a
    ensures Remove(a + [x] + b, x) == a + b
  {
    if a == [] {
      assert a + [x] + b == [x] + b;
    } else {
      assert (a + [x] + b)[0] == a[0] && (a + [x] + b)[1..] == a[1..] + [x] + b;
      RemoveAfter(a[1..], x, b);
    }
  }

  /** One step of the pruning loop: the name at `i` is removed when it is
      in SKIP_DIRS and kept otherwise. */
  lemma PruneStep(snapshot: seq<Name>, i: nat)
    requires i < |snapshot|
    ensures snapshot[i] in SKIP_DIRS ==>
      Remove(Pruned(snapshot[..i]) + snapshot[i..], snapshot[i]) == Pruned(snapshot[..i + 1]) + snapshot[i + 1..]
    ensures snapshot[i] !in SKIP_DIRS ==>
      Pruned(snapshot[..i]) + snapshot[i..] == Pruned(snapshot[..i + 1]) + snapshot[i + 1..]
  {
    var x := snapshot[i];
    assert snapshot[..i + 1] == snapshot[..i] + [x];
    assert snapshot[i..] == [x] + snapshot[i + 1..];
    PrunedAppend(snapshot[..i], [x]);
    assert Pruned([x]) == if x in SKIP_DIRS then [] else [x];
    if x in SKIP_DIRS {
      PrunedExcludes(snapshot[..i], x);
      RemoveAfter(Pruned(snapshot[..i]), x, snapshot[i + 1..]);
      assert Pruned(snapshot[..i]) + snapshot[i..] == Pruned(snapshot[..i]) + [x] + snapshot[i + 1..];
      assert Pruned(snapshot[..i + 1]) == Pruned(snapshot[..i]) + [];
    } else {
      assert Pruned(snapshot[..i]) + snapshot[i..] == (Pruned(snapshot[..i]) + [x]) + snapshot[i + 1..];
    }
  }

  /** The names the walk descends into are the subdirectory names, less the
      pruned ones when the caller prunes. */
  lemma {:induction false} DescendedNames(es: seq<Entry>)
    ensures Descended(es, false) == DirNames(es)
    ensures Descended(es, true) == Pruned(DirNames(es))
  {
    if es != [] {
      DescendedNames(es[1..]);
      var head := if es[0].node.Dir? then [es[0].name] else [];
      PrunedAppend(head, DirNames(es[1..]));
    }
  }

  lemma {:induction false} NamesOfDirNames(es: seq<Entry>, nm: Name)
    requires DistinctNames(es)
    ensures nm in DirNames(es) <==> Child(es, nm).Some? && Child(es, nm).value.Dir?
    ensures nm in FileNames(es) <==> Child(es, nm).Some? && Child(es, nm).value.File?
  {
    if es != [] {
      NamesOfDirNames(es[1..], nm);
      if nm in DirNames(es[1..]) || nm in FileNames(es[1..]) {
        assert Child(es[1..], nm).Some?;
      }
    }
  }

  lemma {:induction false} PrunedSubset(names: seq<Name>, nm: Name)
    ensures nm in Pruned(names) <==> nm in names && nm !in SKIP_DIRS
  {
    if names != [] {
      PrunedSubset(names[1..], nm);
    }
  }

  lemma {:induction false} PrunedDistinct(names: seq<Name>)
    requires Distinct(names)
    ensures Distinct(Pruned(names))
  {
    if names != [] {
      assert Distinct(names[1..]) by {
        forall i, j | 0 <= i < j < |names[1..]| ensures names[1..][i] != names[1..][j] {
          assert names[1..][i] == names[i + 1] && names[1..][j] == names[j + 1];
        }
      }
      PrunedDistinct(names[1..]);
      PrunedSubset(names[1..], names[0]);
      assert names[0] !in names[1..] by {
        forall k | 0 <= k < |names[1..]| ensures names[1..][k] != names[0] {
          assert names[1..][k] == names[k + 1];
        }
      }
      DistinctCons(names[0], Pruned(names[1..]), names[0] !in SKIP_DIRS);
    }
  }

  lemma DistinctCons<T>(x: T, s: seq<T>, keep: bool)
    requires Distinct(s) && x !in s
    ensures Distinct((if keep then [x] else []) + s)
  {
  }

  lemma {:induction false} DirNamesDistinct(es: seq<Entry>)
    requires DistinctNames(es)
    ensures Distinct(DirNames(es)) && Distinct(FileNames(es))
  {
    if es != [] {
      DirNamesDistinct(es[1..]);
      NamesOfDirNames(es[1..], es[0].name);
      DistinctCons(es[0].name, DirNames(es[1..]), es[0].node.Dir?);
      DistinctCons(es[0].name, FileNames(es[1..]), es[0].node.File?);
    }
  }

  lemma DistinctAppend<T>(a: seq<T>, b: seq<T>)
    requires Distinct(a) && Distinct(b)
    requires forall x :: x in a ==> x !in b
    ensures Distinct(a + b)
  {
    forall i, j | 0 <= i < j < |a + b| ensures (a + b)[i] != (a + b)[j] {
      if j >= |a| && i < |a| {
        assert (a + b)[i] in a && (a + b)[j] in b;
      }
    }
  }

  lemma TopDownAppend(a: seq<Path>, b: seq<Path>)
    requires TopDown(a) && TopDown(b)
    requires forall x, y :: x in a && y in b ==> !(y < x)
    ensures TopDown(a + b)
  {
    forall i, j | 0 <= i < j < |a + b| ensures !((a + b)[j] < (a + b)[i]) {
      if j >= |a| && i < |a| {
        assert (a + b)[i] in a && (a + b)[j] in b;
      }
    }
  }

  /** The names the subdirectory list holds when the walk descends are all
      distinct when the directory is well-formed. */
  lemma LevelNamesDistinct(es: seq<Entry>, prune: bool)
    requires DistinctNames(es)
    ensures Distinct((if prune then Pruned(DirNames(es)) else DirNames(es)) + FileNames(es))
  {
    DirNamesDistinct(es);
    PrunedDistinct(DirNames(es));
    forall x | x in (if prune then Pruned(DirNames(es)) else DirNames(es))
      ensures x !in FileNames(es)
    {
      PrunedSubset(DirNames(es), x);
      NamesOfDirNames(es, x);
    }
    DistinctAppend(if prune then Pruned(DirNames(es)) else DirNames(es), FileNames(es));
  }

  // ---------------------------------------------------------------------
  // Facts about the walk order

  /** Every yielded directory lies at or below the directory walked. */
  lemma {:induction false} VisitsPrefix(d: Path, n: Node, prune: bool, x: Path)
    requires x in Visits(d, n, prune)
    ensures d <= x
    decreases n
  {
    if x != d {
      VisitsSeqPrefix(d, n.entries, prune, x);
    }
  }

  lemma {:induction false} VisitsSeqPrefix(d: Path, es: seq<Entry>, prune: bool, x: Path)
    requires x in VisitsSeq(d, es, prune)
    ensures |x| > |d| && d <= x && x[|d|] in Names(es)
    decreases es
  {
    var first := if Descends(es[0], prune) then Visits(d + [es[0].name], es[0].node, prune) else [];
    if x in first {
      VisitsPrefix(d + [es[0].name], es[0].node, prune, x);
      assert x[|d|] == (d + [es[0].name])[|d|];
    } else {
      VisitsSeqPrefix(d, es[1..], prune, x);
    }
  }

  /** Which directory of the listing `es` a directory yielded below `d`
      belongs to. */
  lemma {:induction false} VisitsSeqMember(d: Path, es: seq<Entry>, prune: bool, x: Path)
    requires DistinctNames(es)
    ensures x in VisitsSeq(d, es, prune) <==>
      |x| > |d| && d <= x && Child(es, x[|d|]).Some?
      && Descends(Entry(x[|d|], Child(es, x[|d|]).value), prune)
      && x in Visits(d + [x[|d|]], Child(es, x[|d|]).value, prune)
    decreases es
  {
    if es != [] {
      var e := es[0];
      var first := if Descends(e, prune) then Visits(d + [e.name], e.node, prune) else [];
      VisitsSeqMember(d, es[1..], prune, x);
      if x in first {
        VisitsPrefix(d + [e.name], e.node, prune, x);
        assert x[|d|] == (d + [e.name])[|d|];
        assert d <= x;
      }
      if x in VisitsSeq(d, es[1..], prune) {
        VisitsSeqPrefix(d, es[1..], prune, x);
      }
      if |x| > |d| && d <= x && x[|d|] == e.name {
        assert d + [x[|d|]] == d + [e.name];
      }
    }
  }

  /** A directory is yielded exactly when it lies at or below the walked
      directory, and, when the caller prunes, no directory from just below
      the walked one down to it has a name in SKIP_DIRS. */
  lemma {:induction false} VisitsMember(d: Path, n: Node, prune: bool, x: Path)
    requires WF(n)
    ensures x in Visits(d, n, prune) <==>
      d <= x && IsDirAt(n, x[|d|..])
      && (prune ==> forall k :: |d| <= k < |x| ==> x[k] !in SKIP_DIRS)
    decreases n
  {
    if n.Dir? {
      var es := n.entries;
      VisitsSeqMember(d, es, prune, x);
      if d <= x && |x| > |d| {
        var nm := x[|d|];
        assert x[|d|..][0] == nm && x[|d|..][1..] == x[|d| + 1..];
        match Child(es, nm)
        case None =>
        case Some(c) =>
          assert Entry(nm, c) in es;
          VisitsMember(d + [nm], c, prune, x);
          assert d + [nm] <= x;
          assert x[|d + [nm]|..] == x[|d| + 1..];
          if IsDirAt(c, x[|d| + 1..]) {
            assert c.Dir?;
          }
      } else if d <= x {
        assert x == d;
        assert x[|d|..] == [];
      }
    }
  }

  /** The walk yields no directory twice. */
  lemma {:induction false} VisitsDistinct(d: Path, n: Node, prune: bool)
    requires WF(n)
    ensures Distinct(Visits(d, n, prune))
    decreases n
  {
    if n.Dir? {
      VisitsSeqDistinct(d, n.entries, prune, n);
      forall x | x in VisitsSeq(d, n.entries, prune) ensures x !in [d] {
        VisitsSeqPrefix(d, n.entries, prune, x);
      }
      DistinctAppend([d], VisitsSeq(d, n.entries, prune));
    }
  }

  lemma {:induction false} VisitsSeqDistinct(d: Path, es: seq<Entry>, prune: bool, parent: Node)
    requires DistinctNames(es) && forall e | e in es :: WF(e.node)
    ensures Distinct(VisitsSeq(d, es, prune))
    decreases es
  {
    if es != [] {
      var e := es[0];
      var first := if Descends(e, prune) then Visits(d + [e.name], e.node, prune) else [];
      if Descends(e, prune) {
        VisitsDistinct(d + [e.name], e.node, prune);
      }
      VisitsSeqDistinct(d, es[1..], prune, parent);
      forall x | x in first ensures x !in VisitsSeq(d, es[1..], prune) {
        VisitsPrefix(d + [e.name], e.node, prune, x);
        assert x[|d|] == (d + [e.name])[|d|];
        if x in VisitsSeq(d, es[1..], prune) {
          VisitsSeqPrefix(d, es[1..], prune, x);
        }
      }
      DistinctAppend(first, VisitsSeq(d, es[1..], prune));
    }
  }

  /** The walk is top-down: every directory is yielded before everything
      below it. */
  lemma {:induction false} VisitsTopDown(d: Path, n: Node, prune: bool)
    requires WF(n)
    ensures TopDown(Visits(d, n, prune))
    decreases n
  {
    if n.Dir? {
      VisitsSeqTopDown(d, n.entries, prune, n);
      forall x, y | x in [d] && y in VisitsSeq(d, n.entries, prune) ensures !(y < x) {
        VisitsSeqPrefix(d, n.entries, prune, y);
      }
      TopDownAppend([d], VisitsSeq(d, n.entries, prune));
    }
  }

  lemma {:induction false} VisitsSeqTopDown(d: Path, es: seq<Entry>, prune: bool, parent: Node)
    requires DistinctNames(es) && forall e | e in es :: WF(e.node)
    ensures TopDown(VisitsSeq(d, es, prune))
    decreases es
  {
    if es != [] {
      var e := es[0];
      var first := if Descends(e, prune) then Visits(d + [e.name], e.node, prune) else [];
      if Descends(e, prune) {
        VisitsTopDown(d + [e.name], e.node, prune);
      }
      VisitsSeqTopDown(d, es[1..], prune, parent);
      forall x, y | x in first && y in VisitsSeq(d, es[1..], prune) ensures !(y < x) {
        VisitsPrefix(d + [e.name], e.node, prune, x);
        VisitsSeqPrefix(d, es[1..], prune, y);
        assert x[|d|] == (d + [e.name])[|d|];
        assert x[|d|] != y[|d|];
        assert !(y <= x) by {
          if |y| <= |x| {
            assert x[..|y|][|d|] == x[|d|];
          }
        }
      }
      TopDownAppend(first, VisitsSeq(d, es[1..], prune));
    }
  }

  // ---------------------------------------------------------------------
  // The stack

  /** Walking the subdirectories the walk descends into, one after the
      other, yields what the walk of their parent yields after the parent. */
  lemma {:induction false} PendingUnderDescended(fs: Node, d: Path, es: seq<Entry>, sub: seq<Entry>, prune: bool)
    requires Lookup(fs, d) == Some(Dir(es)) && DistinctNames(es)
    requires forall e | e in sub :: e in es
    ensures PendingUnder(fs, d, Descended(sub, prune), prune) == VisitsSeq(d, sub, prune)
    decreases sub
  {
    if sub != [] {
      var e := sub[0];
      assert e in es;
      PendingUnderDescended(fs, d, es, sub[1..], prune);
      if Descends(e, prune) {
        ChildOfEntry(es, e);
        LookupAppend(fs, d, [e.name]);
        assert Lookup(Dir(es), [e.name]) == Lookup(e.node, []);
        assert Lookup(fs, d + [e.name]) == Some(e.node);
        assert VisitsAt(fs, d + [e.name], prune) == Visits(d + [e.name], e.node, prune);
        assert Descended(sub, prune) == [e.name] + Descended(sub[1..], prune);
      } else {
        assert Descended(sub, prune) == Descended(sub[1..], prune);
      }
    }
  }

  /** Popping directory `top` (a directory holding `es`), yielding it, and
      pushing the names in `names` in reverse leaves to be yielded exactly
      what was to be yielded before, less `top`. */
  lemma PopStep(fs: Node, stack: seq<Path>, es: seq<Entry>, prune: bool)
    requires stack != []
    requires Lookup(fs, stack[|stack| - 1]) == Some(Dir(es)) && DistinctNames(es)
    ensures Pending(fs, stack, prune)
         == [stack[|stack| - 1]] + PendingUnder(fs, stack[|stack| - 1], Descended(es, prune), prune)
            + Pending(fs, stack[..|stack| - 1], prune)
  {
    PendingUnderDescended(fs, stack[|stack| - 1], es, es, prune);
  }

  /** Pushing `d + [names[j - 1]]` on top of a stack whose pending walk
      starts with the walks below `names[j..]` extends it by one name. */
  lemma PushStep(fs: Node, stack: seq<Path>, d: Path, names: seq<Name>, j: nat, rest: seq<Path>, prune: bool)
    requires 0 < j <= |names|
    requires Pending(fs, stack, prune) == PendingUnder(fs, d, names[j..], prune) + rest
    ensures Pending(fs, stack + [d + [names[j - 1]]], prune)
         == PendingUnder(fs, d, names[j - 1..], prune) + rest
  {
    assert (stack + [d + [names[j - 1]]])[..|stack|] == stack;
    assert names[j - 1..][1..] == names[j..];
  }

  /** One turn of the walk's loop on a directory `top` popped off the
      stack: yielding `top` and pushing the directories it descends into
      leaves "yielded so far, then still to yield" unchanged. */
  lemma WalkDirStep(fs: Node, visited: seq<Path>, rest: seq<Path>, top: Path, es: seq<Entry>,
                    pushed: seq<Path>, whole: seq<Path>, prune: bool)
    requires WF(fs) && Lookup(fs, top) == Some(Dir(es))
    requires visited + Pending(fs, rest + [top], prune) == whole
    requires Pending(fs, pushed, prune)
          == PendingUnder(fs, top, Descended(es, prune), prune) + Pending(fs, rest, prune)
    ensures (visited + [top]) + Pending(fs, pushed, prune) == whole
  {
    LookupWF(fs, top);
    PopStep(fs, rest + [top], es, prune);
    assert (rest + [top])[..|rest|] == rest;
    Regroup(visited, top, PendingUnder(fs, top, Descended(es, prune), prune), Pending(fs, rest, prune));
  }

  /** One turn of the walk's loop on a path `top` that is not a directory:
      popping it yields nothing. */
  lemma WalkOtherStep(fs: Node, visited: seq<Path>, rest: seq<Path>, top: Path, whole: seq<Path>, prune: bool)
    requires !IsDirAt(fs, top)
    requires visited + Pending(fs, rest + [top], prune) == whole
    ensures visited + Pending(fs, rest, prune) == whole
  {
    assert (rest + [top])[..|rest|] == rest;
    assert Pending(fs, rest + [top], prune) == VisitsAt(fs, top, prune) + Pending(fs, rest, prune);
    match Lookup(fs, top)
    case None =>
    case Some(n) => assert n.File?;
  }

  /** Everything yielded by `os.walk(p)` lies at or below `p` and is a
      directory. */
  lemma VisitsAtPrefix(fs: Node, p: Path, prune: bool, x: Path)
    requires WF(fs)
    requires x in VisitsAt(fs, p, prune)
    ensures p <= x && IsDirAt(fs, x)
  {
    var n := Lookup(fs, p).value;
    LookupWF(fs, p);
    VisitsMember(p, n, prune, x);
    assert x == p + x[|p|..];
    LookupAppend(fs, p, x[|p|..]);
  }

  /** `os.walk(p)` yields exactly the directories at or below `p`, less,
      when the caller prunes, those reached through a directory below `p`
      whose name is in SKIP_DIRS (or named so themselves). */
  lemma VisitsAtMember(fs: Node, p: Path, prune: bool, x: Path)
    requires WF(fs)
    ensures x in VisitsAt(fs, p, prune) <==>
      p <= x && IsDirAt(fs, x)
      && (prune ==> forall k :: |p| <= k < |x| ==> x[k] !in SKIP_DIRS)
  {
    if p <= x {
      assert x == p + x[|p|..];
      LookupAppend(fs, p, x[|p|..]);
    }
    match Lookup(fs, p)
    case None =>
    case Some(n) =>
      LookupWF(fs, p);
      VisitsMember(p, n, prune, x);
  }

  /** Everything `os.walk(p)` yields lies at or below `p`: the first half
      of `VisitsAtPrefix`, for every tree rather than only well-formed
      ones, as `WalkBelowProject` needs. */
  lemma VisitsAtBelow(fs: Node, p: Path, prune: bool)
    ensures forall x | x in VisitsAt(fs, p, prune) :: p <= x
  {
    forall x | x in VisitsAt(fs, p, prune) ensures p <= x {
      VisitsPrefix(p, Lookup(fs, p).value, prune, x);
    }
  }

  lemma VisitsAtDistinct(fs: Node, p: Path, prune: bool)
    requires WF(fs)
    ensures Distinct(VisitsAt(fs, p, prune)) && TopDown(VisitsAt(fs, p, prune))
  {
    if Lookup(fs, p).Some? {
      LookupWF(fs, p);
      VisitsDistinct(p, Lookup(fs, p).value, prune);
      VisitsTopDown(p, Lookup(fs, p).value, prune);
    }
  }

  /** Every path of `ds` lies at or below `base`. */
  predicate AllBelow(base: Path, ds: seq<Path>) {
    forall i :: 0 <= i < |ds| ==> base <= ds[i]
  }

  /** Every directory walked from `projectDir + rootDir` lies below
      `projectDir`. */
  lemma WalkBelowProject(fs: Node, projectDir: Path, rootDir: Path, prune: bool)
    ensures AllBelow(projectDir, VisitsAt(fs, projectDir + rootDir, prune))
  {
    var ds := VisitsAt(fs, projectDir + rootDir, prune);
    VisitsAtBelow(fs, projectDir + rootDir, prune);
    forall i | 0 <= i < |ds| ensures projectDir <= ds[i] {
      assert ds[i] in ds;
      assert ds[i][..|projectDir|] == (projectDir + rootDir)[..|projectDir|];
    }
  }

  /** Prefixes are unaffected by a common leading part. */
  lemma PrefixCancel(a: Path, b: Path, c: Path)
    ensures a + b <= a + c <==> b <= c
  {
    if b <= c {
      assert (a + c)[..|a + b|] == a + c[..|b|];
    }
    if a + b <= a + c {
      assert c[..|b|] == (a + c)[..|a + b|][|a|..];
      assert (a + b)[|a|..] == b;
    }
  }

  lemma AppendAssoc<T>(a: seq<T>, b: seq<T>, c: seq<T>)
    ensures (a + b) + c == a + (b + c)
  {
  }

  lemma Regroup<T>(a: seq<T>, x: T, b: seq<T>, c: seq<T>)
    ensures a + ([x] + b + c) == (a + [x]) + (b + c)
  {
  }
}
