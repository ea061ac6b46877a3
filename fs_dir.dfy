/** The privileged side's directory listing: `normalize`, `isDirectory`,
    `openFile` and `handleFsDir` of app/main.js, the handler behind the
    `fs:dir` request.

    Node's `path` and `fs` libraries are not modelled; the filesystem is an
    oracle, a record of functions telling what each library call gives for
    each path. */
module FsDir {
  import opened Wrappers
  import Seqs

  /** What a successful `fs.stat` says a path is. */
  datatype Kind = Directory | RegularFile | Other

  /** `fs.stat(p)`: rejects, or resolves to a Stats object of some kind. */
  datatype Stat = StatFailed | Stats(kind: Kind)

  datatype FileSystem = FileSystem(
    /** `path.normalize(path.join(...parts))` */
    normalize: seq<string> -> string,
    /** `fs.access(p, R_OK | W_OK)` resolves */
    accessible: string -> bool,
    /** `fs.stat(p)` */
    stat: string -> Stat,
    /** `fs.readdir(p)`, the child names in enumeration order; None when it rejects */
    readdir: string -> Option<seq<string>>,
    /** `path.relative(path.join(__dirname, '..', 'renderer'), p)` */
    relativeToRenderer: string -> string)

  /** Node's `path.normalize` never yields the empty string (it turns "" into "."). */
  ghost predicate WellFormed(fs: FileSystem)
  {
    forall parts :: fs.normalize(parts) != ""
  }

  /** One record of the listing sent back to the display side. */
  datatype DirEntry = DirEntry(isDirectory: bool, isFile: bool, filename: string)

  /** What `openFile` resolves to: the empty object `{}`, or `{filepath, fd}`. */
  datatype Opened = Empty | Opened(filepath: string, kind: Kind)

  /** `isDirectory`: a failed stat counts as "not a directory". */
  function IsDirectory(fs: FileSystem, filepath: string): (r: bool)
    ensures r <==> fs.stat(filepath).Stats? && fs.stat(filepath).kind == Directory
  {
    match fs.stat(filepath)
    case StatFailed => false
    case Stats(kind) => kind == Directory
  }

  /** `openFile`: `{}` when the access check or the stat fails. */
  function OpenFile(fs: FileSystem, filepath: string): (r: Opened)
    ensures r.Opened? <==> fs.accessible(filepath) && fs.stat(filepath).Stats?
    ensures r.Opened? ==> r.filepath == filepath && r.kind == fs.stat(filepath).kind
  {
    if !fs.accessible(filepath) then Empty
    else match fs.stat(filepath)
      case StatFailed => Empty
      case Stats(kind) => Opened(filepath, kind)
  }

  /** The filter `({filepath, fd}) => filepath && fd`: `{}` has neither, and an
      empty path is falsy in JavaScript. */
  predicate Kept(o: Opened)
  {
    o.Opened? && o.filepath != ""
  }

  /** The `map` that turns a kept `{filepath, fd}` into a record. */
  function ToEntry(fs: FileSystem, o: Opened): (e: DirEntry)
    requires o.Opened?
    ensures !(e.isDirectory && e.isFile)
    ensures e.isDirectory <==> o.kind == Directory
    ensures e.isFile <==> o.kind == RegularFile
    ensures !e.isFile ==> e.filename == o.filepath
    ensures e.isFile ==> e.filename == fs.relativeToRenderer(o.filepath)
  {
    var isFile := o.kind == RegularFile;
    DirEntry(o.kind == Directory, isFile, if isFile then fs.relativeToRenderer(o.filepath) else o.filepath)
  }

  /** `files.map(item => openFile(normalize(filepath, item)))`. */
  function OpenAll(fs: FileSystem, root: string, names: seq<string>): (r: seq<Opened>)
    ensures |r| == |names|
    ensures forall i :: 0 <= i < |r| ==>
      var path := fs.normalize([root, names[i]]);
      (r[i].Opened? <==> fs.accessible(path) && fs.stat(path).Stats?) &&
      (r[i].Opened? ==> r[i].filepath == path && r[i].kind == fs.stat(path).kind)
  {
    seq(|names|, i requires 0 <= i < |names| => OpenFile(fs, fs.normalize([root, names[i]])))
  }

  /** The record `map` over the kept `{filepath, fd}` objects, one record each. */
  function Entries(fs: FileSystem, kept: seq<Opened>): (r: seq<DirEntry>)
    requires forall i :: 0 <= i < |kept| ==> kept[i].Opened?
    ensures |r| == |kept|
    ensures forall i :: 0 <= i < |r| ==> !(r[i].isDirectory && r[i].isFile)
    ensures forall i :: 0 <= i < |r| ==>
      (r[i].isDirectory <==> kept[i].kind == Directory) && (r[i].isFile <==> kept[i].kind == RegularFile)
  {
    seq(|kept|, i requires 0 <= i < |kept| => ToEntry(fs, kept[i]))
  }

  /** The `Promise.all(...).then(stats => stats.filter(...).map(...))` pipeline. */
  function Classify(fs: FileSystem, root: string, names: seq<string>): (r: seq<DirEntry>)
    ensures |r| <= |names|
    ensures forall i :: 0 <= i < |r| ==> !(r[i].isDirectory && r[i].isFile)
  {
    Entries(fs, Seqs.Filter(Kept, OpenAll(fs, root, names)))
  }

  /** `handleFsDir(rawPath)`: None stands for the rejected promise, which only
      a failing `fs.readdir` causes. */
  function HandleFsDir(fs: FileSystem, rawPath: string): (r: Option<seq<DirEntry>>)
    ensures !fs.accessible(fs.normalize([rawPath])) ==> r == Some([])
    ensures !IsDirectory(fs, fs.normalize([rawPath])) ==> r == Some([])
    ensures r.None? <==> var root := fs.normalize([rawPath]);
      fs.accessible(root) && IsDirectory(fs, root) && fs.readdir(root).None?
  {
    var filepath := fs.normalize([rawPath]);
    if !fs.accessible(filepath) then Some([])
    else if !IsDirectory(fs, filepath) then Some([])
    else match fs.readdir(filepath)
      case None => None
      case Some(files) => Some(Classify(fs, filepath, files))
  }

  // ---------------------------------------------------------------------
  // A reference definition of the listing, one child at a time, and the
  // properties of the listing proved through it.

  /** A child path survives the pipeline. */
  predicate Admitted(fs: FileSystem, path: string)
  {
    path != "" && fs.accessible(path) && fs.stat(path).Stats?
  }

  /** The record a surviving child path is described by. */
  function Describe(fs: FileSystem, path: string): DirEntry
    requires fs.stat(path).Stats?
  {
    ToEntry(fs, Opened(path, fs.stat(path).kind))
  }

  /** The listing of the children `names` of `root`, walked left to right. */
  function Walk(fs: FileSystem, root: string, names: seq<string>): seq<DirEntry>
  {
    if names == [] then []
    else
      var path := fs.normalize([root, names[0]]);
      (if Admitted(fs, path) then [Describe(fs, path)] else []) + Walk(fs, root, names[1..])
  }

  lemma OpenAllCons(fs: FileSystem, root: string, names: seq<string>)
    requires names != []
    ensures OpenAll(fs, root, names) == [OpenFile(fs, fs.normalize([root, names[0]]))] + OpenAll(fs, root, names[1..])
  {
  }

  lemma EntriesAppend(fs: FileSystem, a: seq<Opened>, b: seq<Opened>)
    requires forall i :: 0 <= i < |a| ==> a[i].Opened?
    requires forall i :: 0 <= i < |b| ==> b[i].Opened?
    ensures Entries(fs, a + b) == Entries(fs, a) + Entries(fs, b)
  {
  }

  /** The library pipeline computes the reference listing. */
  lemma {:induction false} ClassifyIsWalk(fs: FileSystem, root: string, names: seq<string>)
    ensures Classify(fs, root, names) == Walk(fs, root, names)
  {
    if names != [] {
      var path := fs.normalize([root, names[0]]);
      var first := OpenFile(fs, path);
      var rest := OpenAll(fs, root, names[1..]);
      OpenAllCons(fs, root, names);
      Seqs.FilterCons(Kept, first, rest);
      var head := if Kept(first) then [first] else [];
      assert Entries(fs, head) == if Admitted(fs, path) then [Describe(fs, path)] else [];
      EntriesAppend(fs, head, Seqs.Filter(Kept, rest));
      ClassifyIsWalk(fs, root, names[1..]);
      assert Walk(fs, root, names) ==
        (if Admitted(fs, path) then [Describe(fs, path)] else []) + Walk(fs, root, names[1..]);
    }
  }

  /** With the root accessible and a directory, the result is the reference listing. */
  lemma HandleFsDirIsWalk(fs: FileSystem, rawPath: string, names: seq<string>)
    requires fs.accessible(fs.normalize([rawPath]))
    requires IsDirectory(fs, fs.normalize([rawPath]))
    requires fs.readdir(fs.normalize([rawPath])) == Some(names)
    ensures HandleFsDir(fs, rawPath) == Some(Walk(fs, fs.normalize([rawPath]), names))
  {
    ClassifyIsWalk(fs, fs.normalize([rawPath]), names);
  }

  /** Listing a concatenation of names lists each part: enumeration order is kept. */
  lemma {:induction false} WalkAppend(fs: FileSystem, root: string, a: seq<string>, b: seq<string>)
    ensures Walk(fs, root, a + b) == Walk(fs, root, a) + Walk(fs, root, b)
  {
    if a == [] {
      assert a + b == b;
    } else {
      assert (a + b)[0] == a[0];
      assert (a + b)[1..] == a[1..] + b;
      WalkAppend(fs, root, a[1..], b);
    }
  }

  /** Exactly the admitted children are listed, one entry each: the length is
      the number of admitted names, and so at most the number of names. */
  lemma {:induction false} WalkLength(fs: FileSystem, root: string, names: seq<string>)
    ensures |Walk(fs, root, names)| == |Seqs.Filter(name => Admitted(fs, fs.normalize([root, name])), names)|
    ensures |Walk(fs, root, names)| <= |names|
  {
    if names != [] {
      WalkLength(fs, root, names[1..]);
    }
  }

  /** An entry is in the listing iff some child is admitted and described by it;
      for a well-formed `normalize`, admitted means access and stat both succeed. */
  lemma {:induction false} WalkMember(fs: FileSystem, root: string, names: seq<string>, e: DirEntry)
    ensures e in Walk(fs, root, names) <==>
      exists i :: 0 <= i < |names| && Admitted(fs, fs.normalize([root, names[i]]))
        && e == Describe(fs, fs.normalize([root, names[i]]))
    ensures WellFormed(fs) ==> forall i :: 0 <= i < |names| ==>
      (Admitted(fs, fs.normalize([root, names[i]])) <==>
        fs.accessible(fs.normalize([root, names[i]])) && fs.stat(fs.normalize([root, names[i]])).Stats?)
  {
    if names != [] {
      WalkMember(fs, root, names[1..], e);
      var path := fs.normalize([root, names[0]]);
      if e in Walk(fs, root, names) && !(Admitted(fs, path) && e == Describe(fs, path)) {
        var i :| 0 <= i < |names[1..]| && Admitted(fs, fs.normalize([root, names[1..][i]]))
          && e == Describe(fs, fs.normalize([root, names[1..][i]]));
        assert names[1..][i] == names[i + 1];
      }
      if exists i :: 0 <= i < |names| && Admitted(fs, fs.normalize([root, names[i]]))
          && e == Describe(fs, fs.normalize([root, names[i]])) {
        var i :| 0 <= i < |names| && Admitted(fs, fs.normalize([root, names[i]]))
          && e == Describe(fs, fs.normalize([root, names[i]]));
        if i > 0 {
          assert names[1..][i - 1] == names[i];
        }
      }
    }
  }

  /** Every entry has at most one of the two flags; a file's name is relative to
      the renderer directory, everything else keeps its normalised child path
      `normalize(root, name)`, and
      a child that is neither file nor directory is kept with both flags false. */
  lemma {:induction false} WalkEntries(fs: FileSystem, root: string, names: seq<string>)
    ensures forall e :: e in Walk(fs, root, names) ==> !(e.isDirectory && e.isFile)
    ensures forall i :: 0 <= i < |names| && Admitted(fs, fs.normalize([root, names[i]])) ==>
      var path := fs.normalize([root, names[i]]);
      var e := Describe(fs, path);
      e in Walk(fs, root, names) &&
      e.isDirectory == (fs.stat(path).kind == Directory) &&
      e.isFile == (fs.stat(path).kind == RegularFile) &&
      e.filename == (if e.isFile then fs.relativeToRenderer(path) else path)
  {
    forall e | e in Walk(fs, root, names) ensures !(e.isDirectory && e.isFile) {
      WalkMember(fs, root, names, e);
    }
    forall i | 0 <= i < |names| && Admitted(fs, fs.normalize([root, names[i]]))
      ensures Describe(fs, fs.normalize([root, names[i]])) in Walk(fs, root, names)
    {
      WalkMember(fs, root, names, Describe(fs, fs.normalize([root, names[i]])));
    }
  }

  /** A child that stats as neither file nor directory (a socket, a FIFO) is
      listed, with both flags false and its normalised child path. */
  lemma NeitherIsKept(fs: FileSystem, root: string, name: string)
    requires var path := fs.normalize([root, name]);
      path != "" && fs.accessible(path) && fs.stat(path) == Stats(Other)
    ensures Walk(fs, root, [name]) == [DirEntry(false, false, fs.normalize([root, name]))]
  {
  }
}
