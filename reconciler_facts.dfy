/** What the reconciler's steps guarantee: their effect on the filesystem and the log, and idempotence. */
module ReconcilerFacts {
  import opened Base
  import opened Paths
  import opened Meta
  import opened Reconciler

  // Following symlinks in a changed filesystem

  /** A path that stat() resolves keeps its resolution when directories are added. */
  lemma {:induction false} StatExtends(m: map<Path, Entry>, m2: map<Path, Entry>, p: Path, depth: nat)
    requires Extends(m, m2) && Stat(m, p, depth).Some?
    ensures Stat(m2, p, depth) == Stat(m, p, depth)
    decreases depth
  {
    if m[p].Symlink? {
      StatExtends(m, m2, LinkDestination(p, m[p].target), depth - 1);
    }
  }

  lemma IsDirExtends(m: map<Path, Entry>, m2: map<Path, Entry>, p: Path)
    requires Extends(m, m2) && IsDir(m, p)
    ensures IsDir(m2, p)
  {
    StatExtends(m, m2, p, MaxSymlinkDepth);
  }

  lemma ExtendsTrans(m1: map<Path, Entry>, m2: map<Path, Entry>, m3: map<Path, Entry>)
    requires Extends(m1, m2) && Extends(m2, m3)
    ensures Extends(m1, m3)
  {
  }

  /** No symlink other than q itself points at q. */
  ghost predicate NothingLinksTo(m: map<Path, Entry>, q: Path) {
    forall r :: r in m && r != q && m[r].Symlink? ==> LinkDestination(r, m[r].target) != q
  }

  /** Changing the entry at q does not change where other paths resolve, when nothing links to q. */
  lemma {:induction false} StatAvoids(m: map<Path, Entry>, q: Path, e: Entry, p: Path, depth: nat)
    requires NothingLinksTo(m, q) && p != q
    ensures Stat(m[q := e], p, depth) == Stat(m, p, depth)
    decreases depth
  {
    if p in m && m[p].Symlink? && depth > 0 {
      StatAvoids(m, q, e, LinkDestination(p, m[p].target), depth - 1);
    }
  }

  // os.makedirs and install_mkdir

  lemma MkdirCallSpec(m: map<Path, Entry>, p: Path, parent: Path)
    ensures Extends(m, MkdirCall(m, p, parent).0)
    ensures MkdirCall(m, p, parent).1.Pass? ==> IsDir(MkdirCall(m, p, parent).0, p)
  {
    if p !in m && !(parent != "" && parent in m && !IsDir(m, parent)) {
      assert Stat(m[p := Dir], p, MaxSymlinkDepth) == Some(Dir);
    }
  }

  /** makedirs adds only directories, changes nothing that exists, and on success leaves a directory at p. */
  lemma {:induction false} MakeDirsSpec(m: map<Path, Entry>, p: Path)
    ensures Extends(m, MakeDirs(m, p).0)
    ensures MakeDirs(m, p).1.Pass? ==> IsDir(MakeDirs(m, p).0, p)
    decreases |p|
  {
    if p != "" {
      var head := if Basename(p) == "" then Dirname(Dirname(p)) else Dirname(p);
      var tail := if Basename(p) == "" then Basename(Dirname(p)) else Basename(p);
      var parents := if head != "" && tail != "" && !Exists(m, head) then MakeDirs(m, head) else (m, Pass);
      if head != "" && tail != "" && !Exists(m, head) {
        MakeDirsSpec(m, head);
      }
      if !(parents.1.Fail? && !parents.1.error.FileExists?) {
        MkdirCallSpec(parents.0, p, head);
        ExtendsTrans(m, parents.0, MkdirCall(parents.0, p, head).0);
      }
    }
  }

  /**
   * install_mkdir on one path: an existing directory is left alone and nothing is
   * logged; otherwise MKDIR is logged and on success a directory is there.
   * Existing entries never change and no warning is printed.
   */
  lemma MkdirPathEffect(st: FsState, path: Path)
    ensures var r := MkdirPath(st, path);
      (IsDir(st.entries, path) ==> r == (st, Pass))
      && (!IsDir(st.entries, path) ==> r.0.log == st.log + [MkdirEvent(path)])
      && r.0.warnings == st.warnings && Extends(st.entries, r.0.entries)
      && (r.1.Pass? ==> IsDir(r.0.entries, path))
  {
    MakeDirsSpec(st.entries, path);
  }

  /** s2 follows st by adding directories and MKDIR events only. */
  ghost predicate OnlyDirsAdded(st: FsState, s2: FsState) {
    Extends(st.entries, s2.entries) && s2.warnings == st.warnings
    && |st.log| <= |s2.log| && s2.log[..|st.log|] == st.log
    && forall i :: |st.log| <= i < |s2.log| ==> s2.log[i].MkdirEvent?
  }

  lemma OnlyDirsAddedTrans(s1: FsState, s2: FsState, s3: FsState)
    requires OnlyDirsAdded(s1, s2) && OnlyDirsAdded(s2, s3)
    ensures OnlyDirsAdded(s1, s3)
  {
    assert s3.log[..|s1.log|] == s3.log[..|s2.log|][..|s1.log|];
    forall i | |s1.log| <= i < |s3.log| ensures s3.log[i].MkdirEvent? {
      if i < |s2.log| {
        assert s3.log[i] == s3.log[..|s2.log|][i];
      }
    }
  }

  /** install_mkdir, whatever its argument, only adds directories and logs only MKDIR. */
  lemma {:induction false} MkdirValueOnlyDirs(st: FsState, ops: PathOps, v: Value)
    ensures OnlyDirsAdded(st, MkdirValue(st, ops, v).0)
    decreases v
  {
    match v
    case Str(s) =>
      MkdirPathEffect(st, ops.expandUser(s));
    case List(items) =>
      MkdirItemsOnlyDirs(st, ops, items);
    case Scalar =>
  }

  lemma {:induction false} MkdirItemsOnlyDirs(st: FsState, ops: PathOps, items: seq<Value>)
    ensures OnlyDirsAdded(st, MkdirItems(st, ops, items).0)
    decreases items
  {
    if items != [] {
      var before := MkdirItems(st, ops, items[..|items| - 1]);
      MkdirItemsOnlyDirs(st, ops, items[..|items| - 1]);
      if before.1.Pass? {
        MkdirValueOnlyDirs(before.0, ops, items[|items| - 1]);
        OnlyDirsAddedTrans(st, before.0, MkdirValue(before.0, ops, items[|items| - 1]).0);
      }
    }
  }

  // A reference definition of install_mkdir: flatten, then create each path in turn

  /** The strings of a nested list in order, and whether every leaf was a string (up to the first that is not). */
  function Flatten(v: Value): (seq<string>, bool)
    decreases v
  {
    match v
    case Str(s) => ([s], true)
    case List(items) => FlattenItems(items)
    case Scalar => ([], false)
  }

  function FlattenItems(items: seq<Value>): (seq<string>, bool)
    decreases items
  {
    if items == [] then ([], true)
    else
      var before := FlattenItems(items[..|items| - 1]);
      if !before.1 then before
      else
        var last := Flatten(items[|items| - 1]);
        (before.0 + last.0, last.1)
  }

  /** makedirs for each expanded path in turn, stopping at the first failure. */
  function MkdirPaths(st: FsState, ops: PathOps, paths: seq<string>): (FsState, Outcome) {
    if paths == [] then (st, Pass)
    else
      var before := MkdirPaths(st, ops, paths[..|paths| - 1]);
      if before.1.Fail? then before else MkdirPath(before.0, ops.expandUser(paths[|paths| - 1]))
  }

  /** The paths' outcome, or the "bad mkdirs metadata" error when a non-string leaf followed them. */
  function Finish(r: (FsState, Outcome), allStrings: bool): (FsState, Outcome) {
    if r.1.Fail? || allStrings then r else (r.0, Fail(BadMkdirMetadata))
  }

  lemma {:induction false} MkdirPathsConcat(st: FsState, ops: PathOps, p: seq<string>, q: seq<string>)
    ensures MkdirPaths(st, ops, p + q)
      == var a := MkdirPaths(st, ops, p); if a.1.Fail? then a else MkdirPaths(a.0, ops, q)
    decreases |q|
  {
    if q == [] {
      assert p + q == p;
    } else {
      assert (p + q)[..|p + q| - 1] == p + q[..|q| - 1];
      assert (p + q)[|p + q| - 1] == q[|q| - 1];
      MkdirPathsConcat(st, ops, p, q[..|q| - 1]);
    }
  }

  /**
   * install_mkdir creates the strings of a nested list in order, and raises
   * "bad mkdirs metadata" at the first leaf that is neither a string nor a list.
   */
  lemma {:induction false} MkdirValueFlattens(st: FsState, ops: PathOps, v: Value)
    ensures MkdirValue(st, ops, v) == Finish(MkdirPaths(st, ops, Flatten(v).0), Flatten(v).1)
    decreases v
  {
    match v
    case Str(s) =>
      assert [s][..0] == [];
    case List(items) =>
      MkdirItemsFlattens(st, ops, items);
    case Scalar =>
  }

  lemma {:induction false} MkdirItemsFlattens(st: FsState, ops: PathOps, items: seq<Value>)
    ensures MkdirItems(st, ops, items) == Finish(MkdirPaths(st, ops, FlattenItems(items).0), FlattenItems(items).1)
    decreases items
  {
    if items != [] {
      var init := items[..|items| - 1];
      var last := items[|items| - 1];
      MkdirItemsFlattens(st, ops, init);
      var p := FlattenItems(init);
      var a := MkdirPaths(st, ops, p.0);
      if p.1 && a.1.Pass? {
        MkdirValueFlattens(a.0, ops, last);
      }
      if p.1 {
        MkdirPathsConcat(st, ops, p.0, Flatten(last).0);
      }
    }
  }

  /** After makedirs succeeded for every path, each of them is a directory. */
  lemma {:induction false} MkdirPathsMakeDirs(st: FsState, ops: PathOps, paths: seq<string>)
    requires MkdirPaths(st, ops, paths).1.Pass?
    ensures forall i :: 0 <= i < |paths| ==> IsDir(MkdirPaths(st, ops, paths).0.entries, ops.expandUser(paths[i]))
    decreases |paths|
  {
    if paths != [] {
      var init := paths[..|paths| - 1];
      var before := MkdirPaths(st, ops, init);
      MkdirPathsMakeDirs(st, ops, init);
      var after := MkdirPath(before.0, ops.expandUser(paths[|paths| - 1]));
      MkdirPathEffect(before.0, ops.expandUser(paths[|paths| - 1]));
      forall i | 0 <= i < |paths| ensures IsDir(after.0.entries, ops.expandUser(paths[i])) {
        if i < |paths| - 1 {
          assert paths[i] == init[i];
          IsDirExtends(before.0.entries, after.0.entries, ops.expandUser(paths[i]));
        }
      }
    }
  }

  /** When every path is already a directory, the paths change nothing and log nothing. */
  lemma {:induction false} MkdirPathsExisting(st: FsState, ops: PathOps, paths: seq<string>)
    requires forall i :: 0 <= i < |paths| ==> IsDir(st.entries, ops.expandUser(paths[i]))
    ensures MkdirPaths(st, ops, paths) == (st, Pass)
    decreases |paths|
  {
    if paths != [] {
      MkdirPathsExisting(st, ops, paths[..|paths| - 1]);
    }
  }

  /** A second install_mkdir of the same value changes nothing and logs nothing. */
  lemma MkdirValueIdempotent(st: FsState, ops: PathOps, v: Value)
    requires MkdirValue(st, ops, v).1.Pass?
    ensures var s1 := MkdirValue(st, ops, v).0; MkdirValue(s1, ops, v) == (s1, Pass)
  {
    var s1 := MkdirValue(st, ops, v).0;
    MkdirValueFlattens(st, ops, v);
    MkdirValueFlattens(s1, ops, v);
    MkdirPathsMakeDirs(st, ops, Flatten(v).0);
    MkdirPathsExisting(s1, ops, Flatten(v).0);
  }

  // install_symlink_one

  /** The parent step of install_symlink_one. */
  function ParentStep(st: FsState, ops: PathOps, linkpath: Path): (FsState, Outcome) {
    MkdirValue(st, ops, Str(Dirname(linkpath)))
  }

  /**
   * A regular file at the link path is never touched: it is still there afterwards,
   * no SYMLINK is logged, and on success the warning is printed.
   */
  lemma SymlinkOneRefusesFile(st: FsState, ops: PathOps, target: Path, linkpath: Path)
    requires linkpath in st.entries && st.entries[linkpath] == File
    ensures var r := SymlinkOne(st, ops, target, linkpath);
      linkpath in r.0.entries && r.0.entries[linkpath] == File
      && r.0.log == ParentStep(st, ops, linkpath).0.log
      && (r.1.Pass? ==> r.0.warnings == st.warnings + [linkpath])
  {
    MkdirValueOnlyDirs(st, ops, Str(Dirname(linkpath)));
  }

  /** Any entry that is neither a regular file nor a symlink makes the call raise, untouched and with no SYMLINK logged. */
  lemma SymlinkOneRejectsOther(st: FsState, ops: PathOps, target: Path, linkpath: Path)
    requires linkpath in st.entries && (st.entries[linkpath] == Dir || st.entries[linkpath] == Other)
    ensures var r := SymlinkOne(st, ops, target, linkpath);
      r.1.Fail? && r.0 == ParentStep(st, ops, linkpath).0
      && (ParentStep(st, ops, linkpath).1.Pass? ==> r.1 == Fail(UnknownFileType(linkpath)))
      && linkpath in r.0.entries && r.0.entries[linkpath] == st.entries[linkpath]
  {
    MkdirValueOnlyDirs(st, ops, Str(Dirname(linkpath)));
  }

  /**
   * Otherwise a successful call leaves exactly Symlink(target) at the link path;
   * SYMLINK is logged, after the parent step's MKDIR,
   * exactly when the path was absent or pointed elsewhere; every other existing
   * entry is unchanged.
   */
  lemma SymlinkOneInstalls(st: FsState, ops: PathOps, target: Path, linkpath: Path)
    requires !(linkpath in st.entries && st.entries[linkpath] == File)
    requires SymlinkOne(st, ops, target, linkpath).1.Pass?
    ensures var r := SymlinkOne(st, ops, target, linkpath);
      var changed := linkpath !in st.entries || st.entries[linkpath] != Symlink(target);
      linkpath in r.0.entries && r.0.entries[linkpath] == Symlink(target)
      && r.0.log == ParentStep(st, ops, linkpath).0.log + (if changed then [SymlinkEvent(linkpath)] else [])
      && r.0.warnings == st.warnings
      && (forall q :: q in st.entries && q != linkpath ==> q in r.0.entries && r.0.entries[q] == st.entries[q])
      && (forall q :: q in r.0.entries && q !in st.entries && q != linkpath ==> r.0.entries[q] == Dir)
  {
    var parent := ParentStep(st, ops, linkpath);
    MkdirValueOnlyDirs(st, ops, Str(Dirname(linkpath)));
    assert parent.1.Pass?;
    assert linkpath in parent.0.entries ==> parent.0.entries[linkpath] != Dir;
    assert linkpath in parent.0.entries <==> linkpath in st.entries;
    LinkStepInstalls(parent.0, target, linkpath);
  }

  /** Once the parent is in place, a successful link step leaves exactly Symlink(target) and logs only a change. */
  lemma LinkStepInstalls(s: FsState, target: Path, linkpath: Path)
    requires !(linkpath in s.entries && s.entries[linkpath] == File)
    requires LinkStep(s, target, linkpath).1.Pass?
    ensures var r := LinkStep(s, target, linkpath).0;
      var changed := linkpath !in s.entries || s.entries[linkpath] != Symlink(target);
      r.entries == s.entries[linkpath := Symlink(target)]
      && r.log == s.log + (if changed then [SymlinkEvent(linkpath)] else [])
      && r.warnings == s.warnings
  {
    if linkpath in s.entries && s.entries[linkpath] == Symlink(target) {
      assert s.entries[linkpath := Symlink(target)] == s.entries;
    }
  }

  /**
   * install_symlink_one is idempotent: once it has succeeded, calling it again with
   * the same arguments changes no entry and logs nothing, provided no other symlink
   * points at the link path and the link path is not its own parent directory.
   */
  lemma SymlinkOneIdempotent(st: FsState, ops: PathOps, target: Path, linkpath: Path)
    requires NothingLinksTo(st.entries, linkpath) && ops.expandUser(Dirname(linkpath)) != linkpath
    requires SymlinkOne(st, ops, target, linkpath).1.Pass?
    ensures var s1 := SymlinkOne(st, ops, target, linkpath).0;
      var s2 := SymlinkOne(s1, ops, target, linkpath);
      s2.1.Pass? && s2.0.entries == s1.entries && s2.0.log == s1.log
  {
    var dir := ops.expandUser(Dirname(linkpath));
    var parent := ParentStep(st, ops, linkpath);
    var s1 := SymlinkOne(st, ops, target, linkpath).0;
    MkdirPathEffect(st, dir);
    MkdirValueOnlyDirs(st, ops, Str(Dirname(linkpath)));
    assert IsDir(parent.0.entries, dir);
    assert linkpath in parent.0.entries ==> parent.0.entries[linkpath] != Dir;
    ParentDirKept(parent.0, target, linkpath, dir);
    assert s1 == Relink(parent.0, target, linkpath) || s1 == parent.0
      || s1 == parent.0.(warnings := parent.0.warnings + [linkpath]);
    assert IsDir(s1.entries, dir);
    assert linkpath in s1.entries && (s1.entries[linkpath] == Symlink(target) || s1.entries[linkpath] == File);
    ParentStepExisting(s1, ops, linkpath);
    SymlinkOneSettled(s1, ops, target, linkpath);
  }

  /** A call that finds its parent a directory and its link path settled changes no entry and logs nothing. */
  lemma SymlinkOneSettled(s: FsState, ops: PathOps, target: Path, linkpath: Path)
    requires ParentStep(s, ops, linkpath) == (s, Pass)
    requires linkpath in s.entries && (s.entries[linkpath] == Symlink(target) || s.entries[linkpath] == File)
    ensures var s2 := SymlinkOne(s, ops, target, linkpath);
      s2.1.Pass? && s2.0.entries == s.entries && s2.0.log == s.log
  {
  }

  /** The parent directory survives the link step when nothing else links to the link path. */
  lemma ParentDirKept(s: FsState, target: Path, linkpath: Path, dir: Path)
    requires NothingLinksTo(s.entries, linkpath) && dir != linkpath && IsDir(s.entries, dir)
    ensures IsDir(Relink(s, target, linkpath).entries, dir)
    ensures IsDir(s.(warnings := s.warnings + [linkpath]).entries, dir)
  {
    StatAvoids(s.entries, linkpath, Symlink(target), dir, MaxSymlinkDepth);
  }

  /** With the parent already a directory, the parent step is a no-op. */
  lemma ParentStepExisting(s: FsState, ops: PathOps, linkpath: Path)
    requires IsDir(s.entries, ops.expandUser(Dirname(linkpath)))
    ensures ParentStep(s, ops, linkpath) == (s, Pass)
  {
  }

  // Records are only ever appended

  /** s2's log and warnings continue st's. */
  ghost predicate Appends(st: FsState, s2: FsState) {
    |st.log| <= |s2.log| && s2.log[..|st.log|] == st.log
    && |st.warnings| <= |s2.warnings| && s2.warnings[..|st.warnings|] == st.warnings
  }

  lemma AppendsTrans(s1: FsState, s2: FsState, s3: FsState)
    requires Appends(s1, s2) && Appends(s2, s3)
    ensures Appends(s1, s3)
  {
    assert s3.log[..|s1.log|] == s3.log[..|s2.log|][..|s1.log|];
    assert s3.warnings[..|s1.warnings|] == s3.warnings[..|s2.warnings|][..|s1.warnings|];
  }

  lemma SymlinkOneAppends(st: FsState, ops: PathOps, target: Path, linkpath: Path)
    ensures Appends(st, SymlinkOne(st, ops, target, linkpath).0)
  {
    var parent := ParentStep(st, ops, linkpath);
    MkdirValueOnlyDirs(st, ops, Str(Dirname(linkpath)));
    assert Appends(st, parent.0);
    var r := SymlinkOne(st, ops, target, linkpath).0;
    assert r == parent.0 || r == Relink(parent.0, target, linkpath)
      || r == parent.0.(warnings := parent.0.warnings + [linkpath]);
    assert Appends(parent.0, r);
    AppendsTrans(st, parent.0, r);
  }

  /** install_symlink only appends to the log and the warnings. */
  lemma {:induction false} SymlinkPairsAppends(st: FsState, ops: PathOps, pairs: seq<(Path, Path)>)
    ensures Appends(st, SymlinkPairs(st, ops, pairs).0)
    decreases |pairs|
  {
    if pairs != [] {
      var before := SymlinkPairs(st, ops, pairs[..|pairs| - 1]);
      SymlinkPairsAppends(st, ops, pairs[..|pairs| - 1]);
      if before.1.Pass? {
        var pair := pairs[|pairs| - 1];
        SymlinkOneAppends(before.0, ops, pair.1, ops.expandUser(pair.0));
        AppendsTrans(st, before.0, SymlinkPairs(st, ops, pairs).0);
      }
    }
  }
}
