/** The filesystem the tool layer works on, as a value: a tree of directories
    whose entries are named, and files that hold text. Paths are sequences of
    names; joining two paths is concatenation. This module gives the meaning
    of the three primitive operations the tools perform on it: opening a file
    for reading, `mkdir(parents=True, exist_ok=True)` and opening a file for
    writing. */
module FileSystem {

  type Name = string
  type Path = seq<Name>

  /** The ways an operation on the filesystem or on a process can fail. */
  datatype Error =
    | NotFound        // a component of the path does not exist
    | IsADirectory    // a file operation was asked of a directory
    | NotADirectory   // a component of the path that should be a directory is a file
    | FileExists      // mkdir was asked to create a directory where a file is
    | ReadFailed      // the file cannot be opened for reading or decoded
    | Timeout         // the command outlived the time limit
    | SpawnFailed     // the command could not be started

  datatype Result<T> = Ok(value: T) | Err(error: Error)

  datatype Option<T> = None | Some(value: T)

  /** What a file holds. `Unreadable(text, n)` stands for a file that cannot
      be read through: reading it line by line delivers at most its first `n`
      lines of `text` and then fails (`n == 0` when it cannot even be
      opened). */
  datatype FileData =
    | Readable(text: string)
    | Unreadable(text: string, readableLines: nat)

  /** A node of the tree; the order of a directory's entries is the order in
      which listing the directory returns them. */
  datatype Node = File(data: FileData) | Dir(entries: seq<Entry>)

  datatype Entry = Entry(name: Name, node: Node)

  function Names(es: seq<Entry>): seq<Name> {
    if es == [] then [] else [es[0].name] + Names(es[1..])
  }

  ghost predicate DistinctNames(es: seq<Entry>) {
    es == [] || (es[0].name !in Names(es[1..]) && DistinctNames(es[1..]))
  }

  /** Well-formed: no directory has two entries with the same name. */
  ghost predicate WF(n: Node) {
    match n
    case File(_) => true
    case Dir(es) => DistinctNames(es) && forall e | e in es :: WF(e.node)
  }

  /** The node a directory holds under `name`, if any. */
  function Child(es: seq<Entry>, name: Name): (r: Option<Node>)
    ensures r.Some? <==> name in Names(es)
    ensures r.Some? ==> Entry(name, r.value) in es
  {
    if es == [] then None
    else if es[0].name == name then Some(es[0].node)
    else Child(es[1..], name)
  }

  /** The entries with `name` bound to `x`: an entry already named so is
      replaced in place, otherwise a new entry comes last. */
  function SetChild(es: seq<Entry>, name: Name, x: Node): (r: seq<Entry>)
    ensures Names(r) == if name in Names(es) then Names(es) else Names(es) + [name]
    ensures forall e | e in r :: e in es || e == Entry(name, x)
  {
    if es == [] then [Entry(name, x)]
    else if es[0].name == name then [Entry(name, x)] + es[1..]
    else [es[0]] + SetChild(es[1..], name, x)
  }

  /** The node found by following `p` from `n`. */
  function Lookup(n: Node, p: Path): Option<Node>
    decreases p
  {
    if p == [] then Some(n)
    else match n
      case File(_) => None
      case Dir(es) =>
        match Child(es, p[0])
        case None => None
        case Some(c) => Lookup(c, p[1..])
  }

  predicate IsDirAt(n: Node, p: Path) {
    Lookup(n, p).Some? && Lookup(n, p).value.Dir?
  }

  predicate IsFileAt(n: Node, p: Path) {
    Lookup(n, p).Some? && Lookup(n, p).value.File?
  }

  /** The parent of a path; the root is its own parent. */
  function Dirname(p: Path): Path {
    if p == [] then [] else p[..|p| - 1]
  }

  // ---------------------------------------------------------------------
  // Facts about entries and lookup

  lemma {:induction false} ChildOfSetChild(es: seq<Entry>, name: Name, x: Node, other: Name)
    ensures Child(SetChild(es, name, x), other) == if other == name then Some(x) else Child(es, other)
  {
    if es != [] && es[0].name != name {
      ChildOfSetChild(es[1..], name, x, other);
    }
  }

  /** Binding a name to the node it already holds changes nothing. */
  lemma {:induction false} SetChildSame(es: seq<Entry>, name: Name)
    requires Child(es, name).Some?
    ensures SetChild(es, name, Child(es, name).value) == es
  {
    if es[0].name != name {
      SetChildSame(es[1..], name);
    }
  }

  lemma {:induction false} SetChildDistinct(es: seq<Entry>, name: Name, x: Node)
    requires DistinctNames(es)
    ensures DistinctNames(SetChild(es, name, x))
  {
    if es != [] && es[0].name != name {
      SetChildDistinct(es[1..], name, x);
    }
  }

  /** In a well-formed directory an entry is what its name leads to. */
  lemma {:induction false} ChildOfEntry(es: seq<Entry>, e: Entry)
    requires DistinctNames(es)
    requires e in es
    ensures Child(es, e.name) == Some(e.node)
  {
    if es[0] != e {
      assert e in es[1..];
      NameOfEntry(es[1..], e);
      ChildOfEntry(es[1..], e);
    }
  }

  lemma {:induction false} NameOfEntry(es: seq<Entry>, e: Entry)
    requires e in es
    ensures e.name in Names(es)
  {
    if es[0] != e {
      assert e in es[1..];
      NameOfEntry(es[1..], e);
    }
  }

  /** Following `a + b` is following `a`, then `b`. */
  lemma {:induction false} LookupAppend(n: Node, a: Path, b: Path)
    ensures Lookup(n, a + b) == match Lookup(n, a) case None => None case Some(m) => Lookup(m, b)
    decreases a
  {
    if a != [] {
      assert (a + b)[0] == a[0] && (a + b)[1..] == a[1..] + b;
      match n
      case File(_) =>
      case Dir(es) =>
        match Child(es, a[0])
        case None =>
        case Some(c) => LookupAppend(c, a[1..], b);
    } else {
      assert a + b == b;
    }
  }
  /** The entry `nm` of `d` is found through `d`'s entries, and nothing is
      found below a path that is not a directory. */
  lemma LookupChild(n: Node, d: Path, nm: Name)
    ensures Lookup(n, d + [nm]) == if IsDirAt(n, d) then Child(Lookup(n, d).value.entries, nm) else None
  {
    LookupAppend(n, d, [nm]);
    match Lookup(n, d)
    case None =>
    case Some(m) =>
      assert [nm][1..] == [];
  }


  /** Everything found in a well-formed tree is well-formed. */
  lemma {:induction false} LookupWF(n: Node, p: Path)
    requires WF(n)
    requires Lookup(n, p).Some?
    ensures WF(Lookup(n, p).value)
    decreases p
  {
    if p != [] {
      var c := Child(n.entries, p[0]).value;
      assert Entry(p[0], c) in n.entries;
      LookupWF(c, p[1..]);
    }
  }

  // ---------------------------------------------------------------------
  // Reading: open(path, "r") followed by read()

  /** The outcome of reading the whole file at `p`. */
  function ReadAt(n: Node, p: Path): (r: Result<string>)
    ensures match Lookup(n, p)
            case Some(File(Readable(t))) => r == Ok(t)
            case Some(File(Unreadable(_, _))) => r == Err(ReadFailed)
            case Some(Dir(_)) => r == Err(IsADirectory)
            case None => r == Err(if FileOnPath(n, p) then NotADirectory else NotFound)
    decreases p
  {
    if p == [] then
      match n
      case File(Readable(t)) => Ok(t)
      case File(Unreadable(_, _)) => Err(ReadFailed)
      case Dir(_) => Err(IsADirectory)
    else
      match n
      case File(_) => Err(NotADirectory)
      case Dir(es) =>
        match Child(es, p[0])
        case None => Err(NotFound)
        case Some(c) => ReadAt(c, p[1..])
  }

  // ---------------------------------------------------------------------
  // Writing: mkdir(parents=True, exist_ok=True) on the parent, then
  // open(path, "w") and write

  /** `mkdir(parents=True, exist_ok=True)` at `p`: every missing directory
      on the way is created; an existing directory is accepted; a file in the
      way fails, with FileExists when it is `p` itself. */
  function MakeDirs(n: Node, p: Path): Result<Node>
    decreases p
  {
    if p == [] then
      if n.Dir? then Ok(n) else Err(FileExists)
    else
      match n
      case File(_) => Err(NotADirectory)
      case Dir(es) =>
        var sub := match Child(es, p[0]) case Some(c) => c case None => Dir([]);
        match MakeDirs(sub, p[1..])
        case Err(e) => Err(e)
        case Ok(sub') => Ok(Dir(SetChild(es, p[0], sub')))
  }

  /** Opening `p` for writing and writing `text`: creates the file or
      replaces all its contents; the parent directory must exist. */
  function WriteText(n: Node, p: Path, text: string): Result<Node>
    decreases p
  {
    if p == [] then
      if n.Dir? then Err(IsADirectory) else Ok(File(Readable(text)))
    else
      match n
      case File(_) => Err(NotADirectory)
      case Dir(es) =>
        match Child(es, p[0])
        case None =>
          if |p| == 1 then Ok(Dir(SetChild(es, p[0], File(Readable(text)))))
          else Err(NotFound)
        case Some(c) =>
          match WriteText(c, p[1..], text)
          case Err(e) => Err(e)
          case Ok(c') => Ok(Dir(SetChild(es, p[0], c')))
  }

  /** The two steps of writing a file, as one. */
  function Write(n: Node, p: Path, text: string): Result<Node> {
    match MakeDirs(n, Dirname(p))
    case Err(e) => Err(e)
    case Ok(m) => WriteText(m, p, text)
  }

  /** After `mkdir -p d`: `d` and each of its ancestors is a directory, and
      what lies off that path is as it was. */
  lemma {:induction false} MakeDirsLookup(n: Node, d: Path, q: Path)
    requires MakeDirs(n, d).Ok?
    ensures q <= d ==> IsDirAt(MakeDirs(n, d).value, q)
    ensures !(q <= d) ==> Lookup(MakeDirs(n, d).value, q) == Lookup(n, q)
    decreases d
  {
    var m := MakeDirs(n, d).value;
    if d != [] && q != [] {
      var es := n.entries;
      var sub := match Child(es, d[0]) case Some(c) => c case None => Dir([]);
      var sub' := MakeDirs(sub, d[1..]).value;
      assert m == Dir(SetChild(es, d[0], sub'));
      ChildOfSetChild(es, d[0], sub', q[0]);
      if q[0] == d[0] {
        MakeDirsLookup(sub, d[1..], q[1..]);
        assert q <= d <==> q[1..] <= d[1..];
      }
    }
  }

  /** A successful `mkdir -p` on an existing directory changes nothing. */
  lemma {:induction false} MakeDirsExisting(n: Node, d: Path)
    requires IsDirAt(n, d)
    ensures MakeDirs(n, d) == Ok(n)
    decreases d
  {
    if d != [] {
      var es := n.entries;
      var c := Child(es, d[0]).value;
      MakeDirsExisting(c, d[1..]);
      SetChildSame(es, d[0]);
    }
  }

  lemma {:induction false} MakeDirsWF(n: Node, d: Path)
    requires WF(n) && MakeDirs(n, d).Ok?
    ensures WF(MakeDirs(n, d).value)
    decreases d
  {
    if d != [] {
      var es := n.entries;
      var sub := match Child(es, d[0]) case Some(c) => c case None => Dir([]);
      if Child(es, d[0]).Some? {
        assert Entry(d[0], sub) in es;
      }
      MakeDirsWF(sub, d[1..]);
      SetChildDistinct(es, d[0], MakeDirs(sub, d[1..]).value);
    }
  }

  /** After opening `p` for writing: `p` is a readable file holding `text`,
      its ancestors are directories, and what lies off `p` is as it was. */
  lemma {:induction false} WriteTextLookup(n: Node, p: Path, text: string, q: Path)
    requires WriteText(n, p, text).Ok?
    ensures q == p ==> Lookup(WriteText(n, p, text).value, q) == Some(File(Readable(text)))
    ensures q < p ==> IsDirAt(n, q) && IsDirAt(WriteText(n, p, text).value, q)
    ensures !(q <= p) ==> Lookup(WriteText(n, p, text).value, q) == Lookup(n, q)
    decreases p
  {
    var m := WriteText(n, p, text).value;
    if p != [] && q != [] {
      var es := n.entries;
      match Child(es, p[0])
      case None =>
        assert m == Dir(SetChild(es, p[0], File(Readable(text))));
        ChildOfSetChild(es, p[0], File(Readable(text)), q[0]);
      case Some(c) =>
        var c' := WriteText(c, p[1..], text).value;
        assert m == Dir(SetChild(es, p[0], c'));
        ChildOfSetChild(es, p[0], c', q[0]);
        if q[0] == p[0] {
          WriteTextLookup(c, p[1..], text, q[1..]);
          assert q <= p <==> q[1..] <= p[1..];
          assert q < p <==> q[1..] < p[1..];
        }
    } else if p == [] && q != [] {
      assert n.File? && m.File?;
    }
  }

  lemma {:induction false} WriteTextWF(n: Node, p: Path, text: string)
    requires WF(n) && WriteText(n, p, text).Ok?
    ensures WF(WriteText(n, p, text).value)
    decreases p
  {
    if p != [] {
      var es := n.entries;
      match Child(es, p[0])
      case None =>
        SetChildDistinct(es, p[0], File(Readable(text)));
      case Some(c) =>
        assert Entry(p[0], c) in es;
        WriteTextWF(c, p[1..], text);
        SetChildDistinct(es, p[0], WriteText(c, p[1..], text).value);
    }
  }

  /** A directory made by `mkdir -p` from nothing holds nothing below its
      deepest component. */
  lemma {:induction false} MakeDirsFromEmpty(d: Path, x: Name)
    ensures MakeDirs(Dir([]), d).Ok?
    ensures Lookup(MakeDirs(Dir([]), d).value, d + [x]).None?
    decreases d
  {
    if d == [] {
      assert d + [x] == [x];
    } else {
      MakeDirsFromEmpty(d[1..], x);
      var sub' := MakeDirs(Dir([]), d[1..]).value;
      ChildOfSetChild([], d[0], sub', d[0]);
      assert (d + [x])[0] == d[0] && (d + [x])[1..] == d[1..] + [x];
    }
  }

  /** After `mkdir -p d`, something lies inside `d` only if `d` was already a
      directory. */
  lemma {:induction false} MakeDirsFresh(n: Node, d: Path, x: Name)
    requires MakeDirs(n, d).Ok?
    ensures IsDirAt(n, d) || Lookup(MakeDirs(n, d).value, d + [x]).None?
    decreases d
  {
    if d == [] {
      assert d + [x] == [x];
    } else {
      var es := n.entries;
      var sub := match Child(es, d[0]) case Some(c) => c case None => Dir([]);
      var sub' := MakeDirs(sub, d[1..]).value;
      ChildOfSetChild(es, d[0], sub', d[0]);
      assert (d + [x])[0] == d[0] && (d + [x])[1..] == d[1..] + [x];
      if Child(es, d[0]).Some? {
        MakeDirsFresh(sub, d[1..], x);
      } else {
        MakeDirsFromEmpty(d[1..], x);
      }
    }
  }

  /** Whatever exists, its parent is a directory. */
  lemma {:induction false} ParentIsDir(n: Node, d: Path, x: Name)
    requires Lookup(n, d + [x]).Some?
    ensures IsDirAt(n, d)
  {
    LookupAppend(n, d, [x]);
  }

  /** Opening `d + [x]` for writing inside an existing directory `d` fails
      exactly when `d + [x]` is itself a directory. */
  lemma {:induction false} WriteTextInDir(n: Node, d: Path, x: Name, text: string)
    requires IsDirAt(n, d)
    ensures WriteText(n, d + [x], text).Err? <==> IsDirAt(n, d + [x])
    decreases d
  {
    if d == [] {
      assert d + [x] == [x] && [x][1..] == [];
      match Child(n.entries, x)
      case None =>
      case Some(c) => assert Lookup(n, [x]) == Lookup(c, []);
    } else {
      assert (d + [x])[0] == d[0] && (d + [x])[1..] == d[1..] + [x];
      WriteTextInDir(Child(n.entries, d[0]).value, d[1..], x, text);
    }
  }

  /** Some prefix of `d` (the empty path and `d` itself included) is a file,
      so `mkdir -p d` cannot succeed. */
  predicate FileOnPath(n: Node, d: Path)
    decreases d
  {
    match n
    case File(_) => true
    case Dir(es) =>
      d != [] &&
      match Child(es, d[0])
      case None => false
      case Some(c) => FileOnPath(c, d[1..])
  }

  lemma {:induction false} MakeDirsFails(n: Node, d: Path)
    ensures MakeDirs(n, d).Err? <==> FileOnPath(n, d)
    decreases d
  {
    if d != [] && n.Dir? {
      var sub := match Child(n.entries, d[0]) case Some(c) => c case None => Dir([]);
      if Child(n.entries, d[0]).Some? {
        MakeDirsFails(sub, d[1..]);
      } else {
        MakeDirsFromEmpty(d[1..], "");
      }
    }
  }

  /** FileOnPath, stated over the prefixes of the path. */
  lemma {:induction false} FileOnPathPrefix(n: Node, d: Path)
    ensures FileOnPath(n, d) <==> exists k :: 0 <= k <= |d| && IsFileAt(n, d[..k])
    decreases d
  {
    assert d[..0] == [];
    if d != [] && n.Dir? {
      var es := n.entries;
      forall k | 1 <= k <= |d|
        ensures Lookup(n, d[..k]) == match Child(es, d[0]) case None => None case Some(c) => Lookup(c, d[1..][..k - 1])
      {
        assert d[..k][0] == d[0] && d[..k][1..] == d[1..][..k - 1];
      }
      match Child(es, d[0])
      case None =>
        assert forall k :: 0 <= k <= |d| ==> !IsFileAt(n, d[..k]);
      case Some(c) =>
        FileOnPathPrefix(c, d[1..]);
        if FileOnPath(n, d) {
          var k :| 0 <= k <= |d[1..]| && IsFileAt(c, d[1..][..k]);
          assert IsFileAt(n, d[..k + 1]);
        }
        if exists k :: 0 <= k <= |d| && IsFileAt(n, d[..k]) {
          var k :| 0 <= k <= |d| && IsFileAt(n, d[..k]);
          assert k != 0;
          assert IsFileAt(c, d[1..][..k - 1]);
        }
    }
  }

  /** A path that runs through a file names nothing, and the operating
      system reports NotADirectory for it rather than NotFound, whatever
      follows the file. */
  lemma ThroughFile(n: Node, d: Path, rest: Path)
    requires IsFileAt(n, d) && rest != []
    ensures Lookup(n, d + rest).None? && FileOnPath(n, d + rest)
    ensures ReadAt(n, d + rest) == Err(NotADirectory)
  {
    LookupAppend(n, d, rest);
    FileOnPathPrefix(n, d + rest);
    assert (d + rest)[..|d|] == d;
  }

  // ---------------------------------------------------------------------
  // What writing a file does

  /** Writing and then reading the same path gives back exactly what was
      written: mode "w" replaces whatever the file held before. */
  lemma WriteThenRead(n: Node, p: Path, text: string)
    requires Write(n, p, text).Ok?
    ensures ReadAt(Write(n, p, text).value, p) == Ok(text)
  {
    var m := MakeDirs(n, Dirname(p)).value;
    WriteTextLookup(m, p, text, p);
  }

  /** A successful write leaves every ancestor of the path a directory,
      whether or not it existed before, and changes nothing that lies off
      the path. */
  lemma WriteEffect(n: Node, p: Path, text: string)
    requires Write(n, p, text).Ok?
    ensures forall k :: 0 <= k < |p| ==> IsDirAt(Write(n, p, text).value, p[..k])
    ensures forall q :: !(q <= p) ==> Lookup(Write(n, p, text).value, q) == Lookup(n, q)
  {
    var d := Dirname(p);
    var m := MakeDirs(n, d).value;
    forall k | 0 <= k < |p|
      ensures IsDirAt(Write(n, p, text).value, p[..k])
    {
      WriteTextLookup(m, p, text, p[..k]);
    }
    forall q | !(q <= p)
      ensures Lookup(Write(n, p, text).value, q) == Lookup(n, q)
    {
      assert !(q <= d);
      MakeDirsLookup(n, d, q);
      WriteTextLookup(m, p, text, q);
    }
  }

  /** Writing one file leaves every other file as it was, and creates no
      file but the one written. */
  lemma WriteKeepsOtherFiles(n: Node, p: Path, text: string, q: Path)
    requires Write(n, p, text).Ok?
    requires q != p
    ensures IsFileAt(n, q) <==> IsFileAt(Write(n, p, text).value, q)
    ensures IsFileAt(n, q) ==> Lookup(Write(n, p, text).value, q) == Lookup(n, q)
  {
    var d := Dirname(p);
    var m := MakeDirs(n, d).value;
    if q <= p {
      // q is a proper ancestor of p: a directory after the write, and no
      // file before it, or mkdir would have failed
      assert q <= d;
      WriteTextLookup(m, p, text, q);
      MakeDirsFails(n, d);
      FileOnPathPrefix(n, d);
      assert q == d[..|q|];
    } else {
      MakeDirsLookup(n, d, q);
      WriteTextLookup(m, p, text, q);
    }
  }

  /** Writing fails exactly when some ancestor of the path is a file (mkdir
      fails) or the path names a directory (open fails). */
  lemma WriteFails(n: Node, p: Path, text: string)
    requires n.Dir?
    ensures Write(n, p, text).Err? <==>
            (exists k :: 0 <= k < |p| && IsFileAt(n, p[..k])) || IsDirAt(n, p)
  {
    var d := Dirname(p);
    MakeDirsFails(n, d);
    FileOnPathPrefix(n, d);
    assert forall k :: 0 <= k <= |d| ==> d[..k] == p[..k];
    if p != [] && !FileOnPath(n, d) {
      var x := p[|p| - 1];
      assert p == d + [x];
      var m := MakeDirs(n, d).value;
      MakeDirsLookup(n, d, d);
      WriteTextInDir(m, d, x, text);
      LookupAppend(n, d, [x]);
      if IsDirAt(n, d) {
        MakeDirsExisting(n, d);
      } else {
        MakeDirsFresh(n, d, x);
      }
    }
  }

  /** When the write fails at the open step, the directories made before it
      were all there already: a failed write changes nothing. */
  lemma WriteFailureChangesNothing(n: Node, p: Path, text: string)
    requires MakeDirs(n, Dirname(p)).Ok?
    requires WriteText(MakeDirs(n, Dirname(p)).value, p, text).Err?
    ensures MakeDirs(n, Dirname(p)).value == n
  {
    if p != [] {
      var d := Dirname(p);
      var x := p[|p| - 1];
      assert p == d + [x];
      var m := MakeDirs(n, d).value;
      MakeDirsLookup(n, d, d);
      WriteTextInDir(m, d, x, text);
      MakeDirsFresh(n, d, x);
      MakeDirsExisting(n, d);
    }
  }

  /** Writing keeps the tree well-formed. */
  lemma WriteWF(n: Node, p: Path, text: string)
    requires WF(n)
    requires Write(n, p, text).Ok?
    ensures WF(Write(n, p, text).value)
  {
    MakeDirsWF(n, Dirname(p));
    WriteTextWF(MakeDirs(n, Dirname(p)).value, p, text);
  }
}
