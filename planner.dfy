/** install_one: the steps one source file's metadata asks for, in the order the installer takes them. */
module Planner {
  import opened Base
  import opened Paths
  import opened Meta
  import opened Reconciler
  import opened ReconcilerFacts

  /** The destination after "destdir" is applied: destdir replaces dest with destdir joined to the file's base name. */
  function EffectiveDest(filename: Path, md: Metadata): (d: Option<Path>)
    ensures md.destdir.Some? ==> d.Some? && Basename(d.value) == Basename(filename)
    ensures md.destdir.Some? ==> var dd := md.destdir.value;
      d.value == (if dd == "" || dd[|dd| - 1] == '/' then dd else dd + "/") + Basename(filename)
    ensures md.destdir.None? ==> d == md.dest
  {
    if md.destdir.Some? then
      var name := Basename(filename);
      JoinBasename(md.destdir.value, name);
      assert name == "" || name[0] != '/';
      Some(Join(md.destdir.value, name))
    else md.dest
  }

  /** Whether the extension is stripped: as strip_extension says, else exactly for ".py". */
  function StripWanted(stripExtension: Option<bool>, ext: string): bool {
    if stripExtension.Some? then stripExtension.value else ext == ".py"
  }

  /**
   * The link install_one makes for a destination: the expanded destination, its
   * extension stripped when wanted, and as target the source file's absolute path
   * made relative to the link's directory.
   */
  function LinkFor(ops: PathOps, filename: Path, dest: Path, stripExtension: Option<bool>): (link: (Path, Path))
    ensures |link.0| <= |ops.expandUser(dest)| && ops.expandUser(dest)[..|link.0|] == link.0
    ensures var d := ops.expandUser(dest);
      var dropped := d[|link.0|..];
      (dropped == "" || (dropped[0] == '.' && '/' !in dropped && '.' !in dropped[1..]))
      && (dropped != "" ==> StripWanted(stripExtension, dropped))
    ensures var d := ops.expandUser(dest);
      d[|link.0|..] == if StripWanted(stripExtension, SplitExt(d).1) then SplitExt(d).1 else ""
    ensures link.1 == ops.relPath(ops.absPath(filename), Dirname(link.0))
  {
    var d := ops.expandUser(dest);
    var parts := SplitExt(d);
    if StripWanted(stripExtension, parts.1) then
      assert d[|parts.0|..] == parts.1;
      (parts.0, ops.relPath(ops.absPath(filename), Dirname(parts.0)))
    else
      assert d[|d|..] == "";
      (d, ops.relPath(ops.absPath(filename), Dirname(d)))
  }

  /** install_one(filename, metadata) as a function of the filesystem state before it. */
  function InstallOneSpec(st: FsState, ops: PathOps, filename: Path, md: Metadata): (FsState, Outcome) {
    var made := if md.mkdir.Some? then MkdirValue(st, ops, md.mkdir.value) else (st, Pass);
    if made.1.Fail? then made
    else
      var linked := if md.symlink.Some? then SymlinkPairs(made.0, ops, md.symlink.value) else (made.0, Pass);
      if linked.1.Fail? then linked
      else match EffectiveDest(filename, md)
        case None => linked
        case Some(dest) =>
          var link := LinkFor(ops, filename, dest, md.stripExtension);
          SymlinkOne(linked.0, ops, link.1, link.0)
  }

  /** install_one: mkdir, then the symlink mapping, then destdir, then the link for dest. */
  method InstallOne(fs: FileSystem, ops: PathOps, filename: Path, metadata: Metadata) returns (o: Outcome)
    modifies fs
    ensures (fs.State(), o) == InstallOneSpec(old(fs.State()), ops, filename, metadata)
  {
    ghost var st := fs.State();
    var md := metadata;
    o := Pass;
    if md.mkdir.Some? {
      o := InstallMkdir(fs, ops, md.mkdir.value);
      if o.Fail? {
        return;
      }
    }
    ghost var made := fs.State();
    assert (made, Pass) == if md.mkdir.Some? then MkdirValue(st, ops, md.mkdir.value) else (st, Pass);
    if md.symlink.Some? {
      o := InstallSymlink(fs, ops, md.symlink.value);
      if o.Fail? {
        return;
      }
    }
    ghost var linked := fs.State();
    assert (linked, Pass) == if md.symlink.Some? then SymlinkPairs(made, ops, md.symlink.value) else (made, Pass);
    if md.destdir.Some? {
      md := md.(dest := Some(Join(md.destdir.value, Basename(filename))));
    }
    assert md.dest == EffectiveDest(filename, metadata);
    if md.dest.Some? {
      var dest := ops.expandUser(md.dest.value);
      var parts := SplitExt(dest);
      var strip := parts.1 == ".py";
      if md.stripExtension.Some? {
        strip := md.stripExtension.value;
      }
      if strip {
        dest := parts.0;
      }
      var destdir := Dirname(dest);
      var srcAbs := ops.absPath(filename);
      var srcRel := ops.relPath(srcAbs, destdir);
      assert (dest, srcRel) == LinkFor(ops, filename, md.dest.value, metadata.stripExtension);
      o := InstallSymlinkOne(fs, ops, srcRel, dest);
    }
  }

  // What install_one promises

  /** With destdir present, dest is ignored: the link is named after the source file inside destdir. */
  lemma DestdirOverridesDest(filename: Path, md: Metadata, other: Option<Path>)
    requires md.destdir.Some?
    ensures EffectiveDest(filename, md) == EffectiveDest(filename, md.(dest := other))
    ensures Basename(EffectiveDest(filename, md).value) == Basename(filename)
  {
  }

  /** A ".py" destination with no strip_extension key is linked without its extension. */
  lemma PythonLinkStripped(ops: PathOps, filename: Path, dest: Path, dir: Path, stem: string)
    requires ops.expandUser(dest) == dir + "/" + stem + ".py"
    requires dir != "" && dir[|dir| - 1] != '/'
    requires '/' !in stem && exists k :: 0 <= k < |stem| && stem[k] != '.'
    ensures LinkFor(ops, filename, dest, None) == (dir + "/" + stem, ops.relPath(ops.absPath(filename), dir))
  {
    SplitExtOfName(dir, stem, ".py");
    DirnameOfName(dir, stem);
  }

  /** Any other extension is kept unless strip_extension asks otherwise. */
  lemma OtherLinkKept(ops: PathOps, filename: Path, dest: Path)
    requires SplitExt(ops.expandUser(dest)).1 != ".py"
    ensures LinkFor(ops, filename, dest, None).0 == ops.expandUser(dest)
    ensures LinkFor(ops, filename, dest, Some(false)).0 == ops.expandUser(dest)
  {
  }

  /** strip_extension: true drops any one-dot extension, not only ".py". */
  lemma ExplicitStripDropped(ops: PathOps, filename: Path, dest: Path, dir: Path, stem: string, ext: string)
    requires ops.expandUser(dest) == dir + "/" + stem + ext
    requires '/' !in stem && exists k :: 0 <= k < |stem| && stem[k] != '.'
    requires |ext| > 0 && ext[0] == '.' && '/' !in ext && '.' !in ext[1..]
    ensures LinkFor(ops, filename, dest, Some(true)).0 == dir + "/" + stem
  {
    SplitExtOfName(dir, stem, ext);
  }

  /** Even strip_extension: true keeps a hidden file's name such as ".bashrc": it has no extension. */
  lemma HiddenNameKept(ops: PathOps, filename: Path, dest: Path, dir: Path, name: string)
    requires ops.expandUser(dest) == dir + "/." + name
    requires '/' !in name && '.' !in name
    ensures LinkFor(ops, filename, dest, Some(true)).0 == dir + "/." + name
  {
    var p := dir + "/." + name;
    assert p == (dir + "/") + ("." + name);
    RFindAppend(dir + "/", "." + name, '/');
    assert RFind(dir + "/", '/') == |dir|;
    assert p == (dir + "/.") + name;
    RFindAppend(dir + "/.", name, '.');
    assert RFind(dir + "/.", '.') == |dir| + 1;
    assert !DotAfterStem(p, |dir| + 1);
  }

  /** strip_extension: false keeps even a ".py" extension. */
  lemma ExplicitNoStripKept(ops: PathOps, filename: Path, dest: Path)
    ensures LinkFor(ops, filename, dest, Some(false)).0 == ops.expandUser(dest)
  {
  }

  /**
   * The steps happen in order: the mkdir step's records come first and add only
   * directories; the symlink mapping's records follow; the link for dest comes
   * last. Records and warnings are only ever appended.
   */
  lemma InstallOneOrder(st: FsState, ops: PathOps, filename: Path, md: Metadata)
    ensures var made := if md.mkdir.Some? then MkdirValue(st, ops, md.mkdir.value) else (st, Pass);
      var r := InstallOneSpec(st, ops, filename, md);
      var linked := if md.symlink.Some? then SymlinkPairs(made.0, ops, md.symlink.value) else (made.0, Pass);
      OnlyDirsAdded(st, made.0) && Appends(made.0, r.0) && Appends(st, r.0)
      && (made.1.Fail? ==> r == made)
      && (made.1.Pass? && linked.1.Fail? ==> r == linked)
      && (made.1.Pass? && linked.1.Pass? ==> Appends(linked.0, r.0))
  {
    var made := if md.mkdir.Some? then MkdirValue(st, ops, md.mkdir.value) else (st, Pass);
    if md.mkdir.Some? {
      MkdirValueOnlyDirs(st, ops, md.mkdir.value);
    }
    assert Appends(st, made.0);
    if made.1.Pass? {
      var linked := if md.symlink.Some? then SymlinkPairs(made.0, ops, md.symlink.value) else (made.0, Pass);
      if md.symlink.Some? {
        SymlinkPairsAppends(made.0, ops, md.symlink.value);
      }
      assert Appends(made.0, linked.0);
      var r := InstallOneSpec(st, ops, filename, md);
      if linked.1.Pass? && EffectiveDest(filename, md).Some? {
        var link := LinkFor(ops, filename, EffectiveDest(filename, md).value, md.stripExtension);
        SymlinkOneAppends(linked.0, ops, link.1, link.0);
        AppendsTrans(made.0, linked.0, r.0);
      } else {
        assert linked.1.Pass? ==> r.0 == linked.0;
      }
      AppendsTrans(st, made.0, r.0);
    }
  }

  /**
   * A file whose only key is a ".py" dest such as "~/bin/tool.py", installed where
   * the link's directory (~/bin) is missing but its parent exists: the directory is
   * created, then the link "~/bin/tool" is made to the source file, logged as MKDIR
   * then SYMLINK.
   */
  lemma PythonToolScenario(st: FsState, ops: PathOps, filename: Path, dest: Path, dir: Path, stem: string)
    requires ops.expandUser(dest) == dir + "/" + stem + ".py" && ops.expandUser(dir) == dir
    requires dir != "" && dir[|dir| - 1] != '/'
    requires '/' !in stem && exists k :: 0 <= k < |stem| && stem[k] != '.'
    requires Basename(dir) != "" && Dirname(dir) != "" && IsDir(st.entries, Dirname(dir))
    requires dir !in st.entries && dir + "/" + stem !in st.entries
    ensures var r := InstallOneSpec(st, ops, filename, Metadata(None, None, None, Some(dest), None, None));
      r.1 == Pass
      && r.0.entries == st.entries[dir := Dir][dir + "/" + stem := Symlink(ops.relPath(ops.absPath(filename), dir))]
      && r.0.log == st.log + [MkdirEvent(dir), SymlinkEvent(dir + "/" + stem)]
      && r.0.warnings == st.warnings
  {
    PythonLinkStripped(ops, filename, dest, dir, stem);
    DirnameOfName(dir, stem);
    DestOnly(st, ops, filename, dest);
    LinkIntoNewDir(st, ops, ops.relPath(ops.absPath(filename), dir), dir, dir + "/" + stem);
  }

  /** Metadata whose symlink mapping and dest both name the link path `link`. */
  function SharedLinkMeta(link: Path, target: Path): Metadata {
    Metadata(None, Some([(link, target)]), None, Some(link), Some(false), None)
  }

  /**
   * install_one is not idempotent as a whole: when the symlink mapping links a path
   * to one target and dest links the same path to the file, every run relinks it
   * twice. A second identical call leaves the same entries but logs two more
   * SYMLINK events.
   */
  lemma InstallOneRelinksTwice(st: FsState, ops: PathOps, filename: Path, link: Path, target: Path)
    requires ops.expandUser(link) == link
    requires var dir := ops.expandUser(Dirname(link)); dir != link && dir in st.entries && st.entries[dir] == Dir
    requires link !in st.entries && ops.relPath(ops.absPath(filename), Dirname(link)) != target
    ensures var s1 := InstallOneSpec(st, ops, filename, SharedLinkMeta(link, target));
      var s2 := InstallOneSpec(s1.0, ops, filename, SharedLinkMeta(link, target));
      s1.1 == Pass && s2.1 == Pass
      && s1.0.log == st.log + [SymlinkEvent(link), SymlinkEvent(link)]
      && s2.0.entries == s1.0.entries
      && s2.0.log == s1.0.log + [SymlinkEvent(link), SymlinkEvent(link)]
  {
    var r := ops.relPath(ops.absPath(filename), Dirname(link));
    SharedLinkRun(st, ops, filename, link, target);
    var s1 := InstallOneSpec(st, ops, filename, SharedLinkMeta(link, target)).0;
    SharedLinkRun(s1, ops, filename, link, target);
    assert s1.entries[link := Symlink(r)] == s1.entries;
  }

  /** One run with SharedLinkMeta: the mapping relinks the path to `target`, then dest relinks it to the file. */
  lemma SharedLinkRun(s: FsState, ops: PathOps, filename: Path, link: Path, target: Path)
    requires ops.expandUser(link) == link
    requires var dir := ops.expandUser(Dirname(link)); dir != link && dir in s.entries && s.entries[dir] == Dir
    requires var r := ops.relPath(ops.absPath(filename), Dirname(link));
      r != target && (link !in s.entries || s.entries[link] == Symlink(r))
    ensures var r := ops.relPath(ops.absPath(filename), Dirname(link));
      var run := InstallOneSpec(s, ops, filename, SharedLinkMeta(link, target));
      run.1 == Pass && run.0.entries == s.entries[link := Symlink(r)] && run.0.warnings == s.warnings
      && run.0.log == s.log + [SymlinkEvent(link), SymlinkEvent(link)]
  {
    var r := ops.relPath(ops.absPath(filename), Dirname(link));
    SharedLinkRelinks(s, ops, filename, link, target);
    RelinkTwice(s, target, r, link);
  }

  /** Relinking a path twice leaves only the second target and logs the path twice. */
  lemma RelinkTwice(s: FsState, first: Path, second: Path, link: Path)
    ensures Relink(Relink(s, first, link), second, link)
      == FsState(s.entries[link := Symlink(second)], s.log + [SymlinkEvent(link), SymlinkEvent(link)], s.warnings)
  {
    assert s.entries[link := Symlink(first)][link := Symlink(second)] == s.entries[link := Symlink(second)];
  }

  /** The run as two relinks: first to `target`, then to the file. */
  lemma SharedLinkRelinks(s: FsState, ops: PathOps, filename: Path, link: Path, target: Path)
    requires ops.expandUser(link) == link
    requires var dir := ops.expandUser(Dirname(link)); dir != link && dir in s.entries && s.entries[dir] == Dir
    requires var r := ops.relPath(ops.absPath(filename), Dirname(link));
      r != target && (link !in s.entries || s.entries[link] == Symlink(r))
    ensures InstallOneSpec(s, ops, filename, SharedLinkMeta(link, target))
      == (Relink(Relink(s, target, link), ops.relPath(ops.absPath(filename), Dirname(link)), link), Pass)
  {
    var r := ops.relPath(ops.absPath(filename), Dirname(link));
    var s0 := Relink(s, target, link);
    SharedLinkMapping(s, ops, link, target);
    SharedLinkDest(ops, filename, link, target);
    assert s0.entries[ops.expandUser(Dirname(link))] == Dir;
    RelinkOver(s0, ops, r, link);
    InstallOneThroughDest(s, ops, filename, SharedLinkMeta(link, target), s, s0, link, (link, r));
  }

  /** When the mkdir step and the symlink mapping pass and there is a dest, install_one ends with the dest link. */
  lemma InstallOneThroughDest(st: FsState, ops: PathOps, filename: Path, md: Metadata, made: FsState, mid: FsState, dest: Path, link: (Path, Path))
    requires (if md.mkdir.Some? then MkdirValue(st, ops, md.mkdir.value) else (st, Pass)) == (made, Pass)
    requires (if md.symlink.Some? then SymlinkPairs(made, ops, md.symlink.value) else (made, Pass)) == (mid, Pass)
    requires EffectiveDest(filename, md) == Some(dest) && LinkFor(ops, filename, dest, md.stripExtension) == link
    ensures InstallOneSpec(st, ops, filename, md) == SymlinkOne(mid, ops, link.1, link.0)
  {
    var r := InstallOneSpec(st, ops, filename, md);
    assert EffectiveDest(filename, md).Some?;
    assert r == SymlinkOne(mid, ops, link.1, link.0);
  }

  /** The mapping step of SharedLinkMeta relinks the path to `target`. */
  lemma SharedLinkMapping(s: FsState, ops: PathOps, link: Path, target: Path)
    requires ops.expandUser(link) == link
    requires var dir := ops.expandUser(Dirname(link)); dir != link && dir in s.entries && s.entries[dir] == Dir
    requires link in s.entries ==> s.entries[link].Symlink? && s.entries[link] != Symlink(target)
    ensures SymlinkPairs(s, ops, SharedLinkMeta(link, target).symlink.value) == (Relink(s, target, link), Pass)
  {
    assert [(link, target)][..0] == [];
    RelinkOver(s, ops, target, link);
  }

  /** The dest step of SharedLinkMeta links the path itself to the file, relative to its directory. */
  lemma SharedLinkDest(ops: PathOps, filename: Path, link: Path, target: Path)
    requires ops.expandUser(link) == link
    ensures EffectiveDest(filename, SharedLinkMeta(link, target)) == Some(link)
    ensures LinkFor(ops, filename, link, Some(false)) == (link, ops.relPath(ops.absPath(filename), Dirname(link)))
  {
    ExplicitNoStripKept(ops, filename, link);
  }

  /** With the parent a directory, linking a path that is missing or another symlink relinks it. */
  lemma RelinkOver(s: FsState, ops: PathOps, target: Path, link: Path)
    requires var dir := ops.expandUser(Dirname(link)); dir != link && dir in s.entries && s.entries[dir] == Dir
    requires link in s.entries ==> s.entries[link].Symlink? && s.entries[link] != Symlink(target)
    ensures SymlinkOne(s, ops, target, link) == (Relink(s, target, link), Pass)
  {
    assert IsDir(s.entries, ops.expandUser(Dirname(link)));
    ParentStepExisting(s, ops, link);
  }

  /** Metadata with only a dest key makes exactly one link. */
  lemma DestOnly(st: FsState, ops: PathOps, filename: Path, dest: Path)
    ensures var link := LinkFor(ops, filename, dest, None);
      InstallOneSpec(st, ops, filename, Metadata(None, None, None, Some(dest), None, None))
      == SymlinkOne(st, ops, link.1, link.0)
  {
    var md := Metadata(None, None, None, Some(dest), None, None);
    assert EffectiveDest(filename, md) == Some(dest);
  }

  /** Linking into a missing directory whose parent exists creates the directory, then the link. */
  lemma LinkIntoNewDir(st: FsState, ops: PathOps, target: Path, dir: Path, linkpath: Path)
    requires Dirname(linkpath) == dir && ops.expandUser(dir) == dir
    requires Basename(dir) != "" && Dirname(dir) != "" && IsDir(st.entries, Dirname(dir))
    requires dir !in st.entries && linkpath !in st.entries
    ensures SymlinkOne(st, ops, target, linkpath)
      == (FsState(st.entries[dir := Dir][linkpath := Symlink(target)],
                  st.log + [MkdirEvent(dir), SymlinkEvent(linkpath)], st.warnings), Pass)
  {
    var made := FsState(st.entries[dir := Dir], st.log + [MkdirEvent(dir)], st.warnings);
    MkdirUnderDir(st, dir);
    assert ParentStep(st, ops, linkpath) == (made, Pass);
    assert |Dirname(dir)| < |dir|;
    assert linkpath !in made.entries;
    assert LinkStep(made, target, linkpath) == (Relink(made, target, linkpath), Pass);
    assert made.log + [SymlinkEvent(linkpath)] == st.log + [MkdirEvent(dir), SymlinkEvent(linkpath)];
  }

  /** install_mkdir of a missing directory whose parent exists logs MKDIR and creates just that directory. */
  lemma MkdirUnderDir(st: FsState, dir: Path)
    requires Basename(dir) != "" && Dirname(dir) != "" && IsDir(st.entries, Dirname(dir)) && dir !in st.entries
    ensures MkdirPath(st, dir) == (FsState(st.entries[dir := Dir], st.log + [MkdirEvent(dir)], st.warnings), Pass)
  {
    assert !IsDir(st.entries, dir);
    MakeDirsUnderDir(st.entries, dir);
  }

  /** makedirs of a path whose parent is a directory creates just that path. */
  lemma MakeDirsUnderDir(m: map<Path, Entry>, p: Path)
    requires p !in m && Basename(p) != "" && Dirname(p) != "" && IsDir(m, Dirname(p))
    ensures MakeDirs(m, p) == (m[p := Dir], Pass)
  {
  }
}
