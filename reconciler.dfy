/**
 * The filesystem reconciler: install_mkdir, install_symlink_one and install_symlink.
 * The filesystem is a map from path to the entry lstat() reports there; the verbose
 * log and the "will not overwrite" warnings are kept as sequences beside it.
 */
module Reconciler {
  import opened Base
  import opened Paths
  import opened Meta

  /** What lstat() reports at a path. Other stands for devices, fifos and sockets. */
  datatype Entry = Dir | File | Symlink(target: Path) | Other

  /** A change the verbose log reports ("MKDIR path", "SYMLINK path"). */
  datatype Event = MkdirEvent(path: Path) | SymlinkEvent(path: Path)

  /** The filesystem, the log of changes and the warnings printed so far. */
  datatype FsState = FsState(entries: map<Path, Entry>, log: seq<Event>, warnings: seq<Path>)

  /** The most symlinks the kernel follows before giving up (ELOOP). */
  const MaxSymlinkDepth: nat := 40

  /** Where a symlink at p with the given target points. */
  function LinkDestination(p: Path, target: Path): Path {
    if |target| > 0 && target[0] == '/' then target else Join(Dirname(p), target)
  }

  /** stat(): the entry reached from p by following symlinks, None when the chain ends nowhere. */
  function Stat(m: map<Path, Entry>, p: Path, depth: nat): Option<Entry>
    decreases depth
  {
    if p !in m then None
    else match m[p]
      case Symlink(t) => if depth == 0 then None else Stat(m, LinkDestination(p, t), depth - 1)
      case e => Some(e)
  }

  /** os.path.isdir */
  predicate IsDir(m: map<Path, Entry>, p: Path) {
    Stat(m, p, MaxSymlinkDepth) == Some(Dir)
  }

  /** os.path.exists */
  predicate Exists(m: map<Path, Entry>, p: Path) {
    Stat(m, p, MaxSymlinkDepth).Some?
  }

  /** m2 keeps every entry of m as it was and adds nothing but directories. */
  ghost predicate Extends(m: map<Path, Entry>, m2: map<Path, Entry>) {
    (forall q :: q in m ==> q in m2 && m2[q] == m[q])
    && (forall q :: q in m2 && q !in m ==> m2[q] == Dir)
  }

  /** os.mkdir(p) inside os.makedirs(p, exist_ok=True): an existing directory is accepted. */
  function MkdirCall(m: map<Path, Entry>, p: Path, parent: Path): (map<Path, Entry>, Outcome) {
    if p in m then (m, if IsDir(m, p) then Pass else Fail(FileExists(p)))
    else if parent != "" && parent in m && !IsDir(m, parent) then (m, Fail(NotADirectory(p)))
    else (m[p := Dir], Pass)
  }

  /**
   * os.makedirs(p, exist_ok=True): create the missing ancestors, then p itself.
   * A FileExistsError from the ancestors is ignored, as the library does.
   */
  function MakeDirs(m: map<Path, Entry>, p: Path): (map<Path, Entry>, Outcome)
    decreases |p|
  {
    if p == "" then (m, Fail(NoSuchPath(p)))
    else
      var head := if Basename(p) == "" then Dirname(Dirname(p)) else Dirname(p);
      var tail := if Basename(p) == "" then Basename(Dirname(p)) else Basename(p);
      var parents := if head != "" && tail != "" && !Exists(m, head) then MakeDirs(m, head) else (m, Pass);
      if parents.1.Fail? && !parents.1.error.FileExists? then parents
      else MkdirCall(parents.0, p, head)
  }

  /**
   * The filesystem as the installer sees it through the os module. Each method
   * is one library call; the install steps below are built from them.
   */
  class FileSystem {
    var entries: map<Path, Entry>
    var log: seq<Event>
    var warnings: seq<Path>

    function State(): FsState
      reads this
    {
      FsState(entries, log, warnings)
    }

    constructor (initial: map<Path, Entry>)
      ensures State() == FsState(initial, [], [])
    {
      entries, log, warnings := initial, [], [];
    }

    /** os.path.isdir */
    method IsDirectory(p: Path) returns (b: bool)
      ensures b == IsDir(entries, p)
    {
      b := IsDir(entries, p);
    }

    /** os.lstat, with None where it raises FileNotFoundError. */
    method Lstat(p: Path) returns (e: Option<Entry>)
      ensures e.Some? <==> p in entries
      ensures e.Some? ==> e.value == entries[p]
    {
      e := if p in entries then Some(entries[p]) else None;
    }

    /** os.makedirs(p, exist_ok=True) */
    method MakeDirectories(p: Path) returns (o: Outcome)
      modifies this
      ensures (entries, o) == MakeDirs(old(entries), p)
      ensures log == old(log) && warnings == old(warnings)
    {
      var r := MakeDirs(entries, p);
      entries := r.0;
      o := r.1;
    }

    /** os.unlink */
    method Unlink(p: Path)
      requires p in entries
      modifies this
      ensures entries == old(entries) - {p}
      ensures log == old(log) && warnings == old(warnings)
    {
      entries := entries - {p};
    }

    /** os.symlink(target, p) */
    method CreateSymlink(target: Path, p: Path)
      requires p !in entries
      modifies this
      ensures entries == old(entries)[p := Symlink(target)]
      ensures log == old(log) && warnings == old(warnings)
    {
      entries := entries[p := Symlink(target)];
    }

    /** log(action, filename) with verbose output on. */
    method Log(e: Event)
      modifies this
      ensures log == old(log) + [e]
      ensures entries == old(entries) && warnings == old(warnings)
    {
      log := log + [e];
    }

    /** The "will not overwrite regular file" message. */
    method Warn(p: Path)
      modifies this
      ensures warnings == old(warnings) + [p]
      ensures entries == old(entries) && log == old(log)
    {
      warnings := warnings + [p];
    }
  }

  // The install steps as functions of the state before them

  /** install_mkdir on one (already expanded) path. */
  function MkdirPath(st: FsState, path: Path): (FsState, Outcome) {
    if IsDir(st.entries, path) then (st, Pass)
    else
      var made := MakeDirs(st.entries, path);
      (FsState(made.0, st.log + [MkdirEvent(path)], st.warnings), made.1)
  }

  /** install_mkdir: a string, or a list whose elements are handled in turn. */
  function MkdirValue(st: FsState, ops: PathOps, v: Value): (FsState, Outcome)
    decreases v
  {
    match v
    case Str(s) => MkdirPath(st, ops.expandUser(s))
    case List(items) => MkdirItems(st, ops, items)
    case Scalar => (st, Fail(BadMkdirMetadata))
  }

  /** The loop over a list value of install_mkdir; it stops at the first exception. */
  function MkdirItems(st: FsState, ops: PathOps, items: seq<Value>): (FsState, Outcome)
    decreases items
  {
    if items == [] then (st, Pass)
    else
      var before := MkdirItems(st, ops, items[..|items| - 1]);
      if before.1.Fail? then before else MkdirValue(before.0, ops, items[|items| - 1])
  }

  /** Replace whatever is at linkpath by a symlink to target, and log it. */
  function Relink(st: FsState, target: Path, linkpath: Path): FsState {
    FsState(st.entries[linkpath := Symlink(target)], st.log + [SymlinkEvent(linkpath)], st.warnings)
  }

  /** install_symlink_one(target, linkpath) */
  function SymlinkOne(st: FsState, ops: PathOps, target: Path, linkpath: Path): (FsState, Outcome) {
    var parent := MkdirValue(st, ops, Str(Dirname(linkpath)));
    if parent.1.Fail? then parent else LinkStep(parent.0, target, linkpath)
  }

  /** install_symlink_one once the parent directory is in place: what lstat finds decides. */
  function LinkStep(st: FsState, target: Path, linkpath: Path): (FsState, Outcome) {
    if linkpath !in st.entries then (Relink(st, target, linkpath), Pass)
    else match st.entries[linkpath]
      case File => (st.(warnings := st.warnings + [linkpath]), Pass)
      case Symlink(current) => if current == target then (st, Pass) else (Relink(st, target, linkpath), Pass)
      case _ => (st, Fail(UnknownFileType(linkpath)))
  }

  /** install_symlink: each (link path, target) pair in mapping order, the link path expanded. */
  function SymlinkPairs(st: FsState, ops: PathOps, pairs: seq<(Path, Path)>): (FsState, Outcome)
  {
    if pairs == [] then (st, Pass)
    else
      var before := SymlinkPairs(st, ops, pairs[..|pairs| - 1]);
      var pair := pairs[|pairs| - 1];
      if before.1.Fail? then before else SymlinkOne(before.0, ops, pair.1, ops.expandUser(pair.0))
  }

  // The install steps as dotsctl.py performs them

  /** A failure in a list prefix is the failure of the whole list. */
  lemma {:induction false} MkdirItemsFailed(st: FsState, ops: PathOps, items: seq<Value>, n: nat)
    requires n <= |items| && MkdirItems(st, ops, items[..n]).1.Fail?
    ensures MkdirItems(st, ops, items) == MkdirItems(st, ops, items[..n])
    decreases |items| - n
  {
    if n < |items| {
      assert items[..|items| - 1][..n] == items[..n];
      MkdirItemsFailed(st, ops, items[..|items| - 1], n);
    } else {
      assert items[..n] == items;
    }
  }

  /** install_mkdir */
  method InstallMkdir(fs: FileSystem, ops: PathOps, v: Value) returns (o: Outcome)
    modifies fs
    ensures (fs.State(), o) == MkdirValue(old(fs.State()), ops, v)
    decreases v
  {
    match v
    case List(items) =>
      ghost var st := fs.State();
      var i := 0;
      while i < |items|
        invariant 0 <= i <= |items|
        invariant MkdirItems(st, ops, items[..i]) == (fs.State(), Pass)
      {
        assert items[..i + 1][..i] == items[..i];
        ghost var before := fs.State();
        o := InstallMkdir(fs, ops, items[i]);
        assert MkdirItems(st, ops, items[..i + 1]) == MkdirValue(before, ops, items[i]);
        if o.Fail? {
          MkdirItemsFailed(st, ops, items, i + 1);
          return;
        }
        i := i + 1;
      }
      assert items[..i] == items;
      o := Pass;
    case Str(s) =>
      o := InstallMkdirPath(fs, ops.expandUser(s));
    case Scalar =>
      o := Fail(BadMkdirMetadata);
  }

  /** install_mkdir on a string, once expanded. */
  method InstallMkdirPath(fs: FileSystem, path: Path) returns (o: Outcome)
    modifies fs
    ensures (fs.State(), o) == MkdirPath(old(fs.State()), path)
  {
    var isDir := fs.IsDirectory(path);
    if isDir {
      return Pass;
    }
    fs.Log(MkdirEvent(path));
    o := fs.MakeDirectories(path);
  }

  /** install_symlink_one */
  method InstallSymlinkOne(fs: FileSystem, ops: PathOps, target: Path, linkpath: Path) returns (o: Outcome)
    modifies fs
    ensures (fs.State(), o) == SymlinkOne(old(fs.State()), ops, target, linkpath)
  {
    var destdir := Dirname(linkpath);
    o := InstallMkdir(fs, ops, Str(destdir));
    if o.Fail? {
      return;
    }
    o := InstallLink(fs, target, linkpath);
  }

  /** The rest of install_symlink_one: refuse a regular file, keep a matching link, replace the rest. */
  method InstallLink(fs: FileSystem, target: Path, linkpath: Path) returns (o: Outcome)
    modifies fs
    ensures (fs.State(), o) == LinkStep(old(fs.State()), target, linkpath)
  {
    var stat := fs.Lstat(linkpath);
    if stat.Some? {
      if stat.value == File {
        fs.Warn(linkpath);
        return Pass;
      }
      if stat.value.Symlink? {
        if stat.value.target == target {
          // no change, so nothing is reported
          return Pass;
        }
      } else {
        return Fail(UnknownFileType(linkpath));
      }
      ghost var linked := fs.entries[linkpath := Symlink(target)];
      fs.Unlink(linkpath);
      assert fs.entries[linkpath := Symlink(target)] == linked;
    }

    fs.Log(SymlinkEvent(linkpath));
    fs.CreateSymlink(target, linkpath);
    o := Pass;
  }

  lemma {:induction false} SymlinkPairsFailed(st: FsState, ops: PathOps, pairs: seq<(Path, Path)>, n: nat)
    requires n <= |pairs| && SymlinkPairs(st, ops, pairs[..n]).1.Fail?
    ensures SymlinkPairs(st, ops, pairs) == SymlinkPairs(st, ops, pairs[..n])
    decreases |pairs| - n
  {
    if n < |pairs| {
      assert pairs[..|pairs| - 1][..n] == pairs[..n];
      SymlinkPairsFailed(st, ops, pairs[..|pairs| - 1], n);
    } else {
      assert pairs[..n] == pairs;
    }
  }

  /** install_symlink */
  method InstallSymlink(fs: FileSystem, ops: PathOps, pairs: seq<(Path, Path)>) returns (o: Outcome)
    modifies fs
    ensures (fs.State(), o) == SymlinkPairs(old(fs.State()), ops, pairs)
  {
    var i := 0;
    while i < |pairs|
      invariant 0 <= i <= |pairs|
      invariant SymlinkPairs(old(fs.State()), ops, pairs[..i]) == (fs.State(), Pass)
    {
      assert pairs[..i + 1][..i] == pairs[..i];
      var linkpath := ops.expandUser(pairs[i].0);
      ghost var before := fs.State();
      o := InstallSymlinkOne(fs, ops, pairs[i].1, linkpath);
      assert SymlinkPairs(old(fs.State()), ops, pairs[..i + 1]) == SymlinkOne(before, ops, pairs[i].1, linkpath);
      if o.Fail? {
        SymlinkPairsFailed(old(fs.State()), ops, pairs, i + 1);
        return;
      }
      i := i + 1;
    }
    assert pairs[..i] == pairs;
    o := Pass;
  }
}
