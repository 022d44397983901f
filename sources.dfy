/** sources_foreach: which files are read, and the metadata gathered from them in sorted order. */
module Sources {
  import opened Base
  import opened Paths
  import opened Meta
  import opened Scanner
  import opened Ordering

  /**
   * The files the installer can read: each regular file (os.path.isfile) with its
   * lines, and what a recursive glob of everything below a source lists.
   */
  datatype SourceTree = SourceTree(files: map<Path, seq<Line>>, glob: Path -> seq<Path>)

  predicate IsFile(tree: SourceTree, p: Path) {
    p in tree.files
  }

  /** _source_load(p) */
  function LoadOf(tree: SourceTree, parse: seq<string> -> YamlResult, p: Path): Result<Option<Metadata>>
    requires IsFile(tree, p)
  {
    Load(tree.files[p], parse)
  }

  /** p is a file that loads without error and carries a metadata block. */
  ghost predicate HasMeta(tree: SourceTree, parse: seq<string> -> YamlResult, p: Path) {
    IsFile(tree, p) && LoadOf(tree, parse, p).Ok? && LoadOf(tree, parse, p).value.Some?
  }

  /** The pathnames given on the command line, each once, in first-occurrence order. */
  function Dedup(names: seq<Path>): (r: seq<Path>)
    ensures forall x :: x in r <==> x in names
    ensures NoDuplicates(r)
  {
    if names == [] then []
    else
      var before := Dedup(names[..|names| - 1]);
      var last := names[|names| - 1];
      assert forall x :: x in names <==> x in names[..|names| - 1] || x == last;
      if last in before then before else before + [last]
  }

  /** The sources to visit: the command-line pathnames when there are any, else the configured ones. */
  function Roots(pathname: seq<Path>, configured: seq<Path>): seq<Path> {
    if pathname != [] then Dedup(pathname) else configured
  }

  /** The gathered metadata, as the installer's dict holds it: file -> metadata in insertion order. */
  type Data = seq<(Path, Metadata)>

  function Names(data: Data): set<Path> {
    set i | 0 <= i < |data| :: data[i].0
  }

  function PathKey(entry: (Path, Metadata)): string {
    entry.0
  }

  /** Loading one file into the gathered metadata. */
  function Record(tree: SourceTree, parse: seq<string> -> YamlResult, data: Data, file: Path): Result<Data>
    requires IsFile(tree, file)
  {
    match LoadOf(tree, parse, file)
    case Err(e) => Err(e)
    case Ok(None) => Ok(data)
    case Ok(Some(md)) =>
      if file in Names(data) then Err(MultipleSourceLoads(file)) else Ok(data + [(file, md)])
  }

  /** The files of a glob in turn, skipping what is not a regular file. */
  function RecordFiles(tree: SourceTree, parse: seq<string> -> YamlResult, data: Data, files: seq<Path>): Result<Data> {
    if files == [] then Ok(data)
    else
      var before := RecordFiles(tree, parse, data, files[..|files| - 1]);
      var file := files[|files| - 1];
      if before.Err? || !IsFile(tree, file) then before else Record(tree, parse, before.value, file)
  }

  /** Each source in turn: a regular file is loaded itself, anything else through its glob. */
  function RecordSources(tree: SourceTree, parse: seq<string> -> YamlResult, sources: seq<Path>): Result<Data> {
    if sources == [] then Ok([])
    else
      var before := RecordSources(tree, parse, sources[..|sources| - 1]);
      var source := sources[|sources| - 1];
      if before.Err? then before
      else if IsFile(tree, source) then Record(tree, parse, before.value, source)
      else RecordFiles(tree, parse, before.value, tree.glob(source))
  }

  /** sources_foreach before the callbacks: the gathered metadata in sorted order of file name. */
  function Collected(tree: SourceTree, parse: seq<string> -> YamlResult, pathname: seq<Path>, configured: seq<Path>): Result<Data> {
    var data := RecordSources(tree, parse, Roots(pathname, configured));
    if data.Err? then Err(data.error) else Ok(SortBy(data.value, PathKey))
  }

  lemma {:induction false} RecordFilesFailed(tree: SourceTree, parse: seq<string> -> YamlResult, data: Data, files: seq<Path>, n: nat)
    requires n <= |files| && RecordFiles(tree, parse, data, files[..n]).Err?
    ensures RecordFiles(tree, parse, data, files) == RecordFiles(tree, parse, data, files[..n])
    decreases |files| - n
  {
    if n < |files| {
      assert files[..n + 1][..n] == files[..n];
      RecordFilesFailed(tree, parse, data, files, n + 1);
    } else {
      assert files[..n] == files;
    }
  }

  lemma {:induction false} RecordSourcesFailed(tree: SourceTree, parse: seq<string> -> YamlResult, sources: seq<Path>, n: nat)
    requires n <= |sources| && RecordSources(tree, parse, sources[..n]).Err?
    ensures RecordSources(tree, parse, sources) == RecordSources(tree, parse, sources[..n])
    decreases |sources| - n
  {
    if n < |sources| {
      assert sources[..n + 1][..n] == sources[..n];
      RecordSourcesFailed(tree, parse, sources, n + 1);
    } else {
      assert sources[..n] == sources;
    }
  }

  /** One file of sources_foreach: load it, skip it without a block, refuse it if already gathered. */
  method RecordOne(tree: SourceTree, parse: seq<string> -> YamlResult, data: Data, file: Path) returns (r: Result<Data>)
    requires IsFile(tree, file)
    ensures r == Record(tree, parse, data, file)
  {
    var loaded := SourceLoad(tree.files[file], parse);
    if loaded.Err? {
      return Err(loaded.error);
    }
    if loaded.value.None? {
      return Ok(data);
    }
    if file in Names(data) {
      return Err(MultipleSourceLoads(file));
    }
    return Ok(data + [(file, loaded.value.value)]);
  }

  /** The files a glob lists, in turn. */
  method RecordGlobbed(tree: SourceTree, parse: seq<string> -> YamlResult, start: Data, files: seq<Path>) returns (r: Result<Data>)
    ensures r == RecordFiles(tree, parse, start, files)
  {
    var data := start;
    for j := 0 to |files|
      invariant RecordFiles(tree, parse, start, files[..j]) == Ok(data)
    {
      assert files[..j + 1][..j] == files[..j];
      if files[j] in tree.files {
        var next := RecordOne(tree, parse, data, files[j]);
        if next.Err? {
          RecordFilesFailed(tree, parse, start, files, j + 1);
          return next;
        }
        data := next.value;
      }
    }
    assert files[..|files|] == files;
    return Ok(data);
  }

  /** The command-line pathnames as keys of a dict, each once. */
  method PathnameSources(pathname: seq<Path>) returns (sources: seq<Path>)
    ensures sources == Dedup(pathname)
  {
    sources := [];
    for i := 0 to |pathname|
      invariant sources == Dedup(pathname[..i])
    {
      assert pathname[..i + 1][..i] == pathname[..i];
      if pathname[i] !in sources {
        sources := sources + [pathname[i]];
      }
    }
    assert pathname[..|pathname|] == pathname;
  }

  /** The loop of sources_foreach over the sources. */
  method RecordAll(tree: SourceTree, parse: seq<string> -> YamlResult, sources: seq<Path>) returns (r: Result<Data>)
    ensures r == RecordSources(tree, parse, sources)
  {
    var data: Data := [];
    for i := 0 to |sources|
      invariant RecordSources(tree, parse, sources[..i]) == Ok(data)
    {
      assert sources[..i + 1][..i] == sources[..i];
      var next;
      if sources[i] in tree.files {
        next := RecordOne(tree, parse, data, sources[i]);
      } else {
        next := RecordGlobbed(tree, parse, data, tree.glob(sources[i]));
      }
      if next.Err? {
        RecordSourcesFailed(tree, parse, sources, i + 1);
        return next;
      }
      data := next.value;
    }
    assert sources[..|sources|] == sources;
    return Ok(data);
  }

  /** sources_foreach(args, func) up to the calls of func: returns what func is called with, in order. */
  method SourcesForeach(tree: SourceTree, parse: seq<string> -> YamlResult, pathname: seq<Path>, configured: seq<Path>)
    returns (r: Result<Data>)
    ensures r == Collected(tree, parse, pathname, configured)
  {
    var sources := configured;
    if pathname != [] {
      sources := PathnameSources(pathname);
    }
    var data := RecordAll(tree, parse, sources);
    if data.Err? {
      return Err(data.error);
    }
    r := Ok(SortBy(data.value, PathKey));
  }

  // What the gathering promises

  /** The files visited, in order: each source that is a regular file, else what its glob lists. */
  function Reach(tree: SourceTree, sources: seq<Path>): seq<Path> {
    if sources == [] then []
    else
      var source := sources[|sources| - 1];
      Reach(tree, sources[..|sources| - 1]) + (if IsFile(tree, source) then [source] else tree.glob(source))
  }

  /** The visited files that carry a metadata block. */
  ghost function MetaFiles(tree: SourceTree, parse: seq<string> -> YamlResult, files: seq<Path>): set<Path> {
    set i | 0 <= i < |files| && HasMeta(tree, parse, files[i]) :: files[i]
  }

  /**
   * Gathering over files can succeed from data0: every visited regular file loads,
   * and no file with a block is visited twice or was gathered already.
   */
  ghost predicate Clean(tree: SourceTree, parse: seq<string> -> YamlResult, data0: Data, files: seq<Path>) {
    (forall i :: 0 <= i < |files| && IsFile(tree, files[i]) ==> LoadOf(tree, parse, files[i]).Ok?)
    && (forall i :: 0 <= i < |files| && HasMeta(tree, parse, files[i]) ==> files[i] !in Names(data0))
    && (forall i, j :: 0 <= i < j < |files| && files[i] == files[j] ==> !HasMeta(tree, parse, files[i]))
  }

  /** Each gathered entry is a file with its own metadata block, and no file is gathered twice. */
  ghost predicate Registry(tree: SourceTree, parse: seq<string> -> YamlResult, data: Data) {
    (forall k :: 0 <= k < |data| ==> HasMeta(tree, parse, data[k].0) && LoadOf(tree, parse, data[k].0) == Ok(Some(data[k].1)))
    && DistinctKeys(data, PathKey)
  }

  lemma NamesSnoc(data: Data, entry: (Path, Metadata))
    ensures Names(data + [entry]) == Names(data) + {entry.0}
  {
    var d := data + [entry];
    assert d[|data|] == entry;
    forall x | x in Names(data) ensures x in Names(d) {
      var k :| 0 <= k < |data| && data[k].0 == x;
      assert d[k] == data[k];
    }
  }

  lemma MetaFilesSnoc(tree: SourceTree, parse: seq<string> -> YamlResult, init: seq<Path>, last: Path)
    ensures MetaFiles(tree, parse, init + [last])
      == MetaFiles(tree, parse, init) + (if HasMeta(tree, parse, last) then {last} else {})
  {
    var files := init + [last];
    assert files[|init|] == last;
    forall x | x in MetaFiles(tree, parse, init) ensures x in MetaFiles(tree, parse, files) {
      var k :| 0 <= k < |init| && HasMeta(tree, parse, init[k]) && init[k] == x;
      assert files[k] == init[k];
    }
  }

  lemma CleanSnoc(tree: SourceTree, parse: seq<string> -> YamlResult, data0: Data, init: seq<Path>, last: Path)
    ensures Clean(tree, parse, data0, init + [last])
      <==> (Clean(tree, parse, data0, init)
            && (IsFile(tree, last) ==> LoadOf(tree, parse, last).Ok?)
            && (HasMeta(tree, parse, last) ==> last !in Names(data0) && last !in MetaFiles(tree, parse, init)))
  {
    var files := init + [last];
    assert files[|init|] == last;
    assert forall i :: 0 <= i < |init| ==> files[i] == init[i];
    if HasMeta(tree, parse, last) && last in MetaFiles(tree, parse, init) {
      var k :| 0 <= k < |init| && HasMeta(tree, parse, init[k]) && init[k] == last;
      assert files[k] == files[|init|];
    }
  }

  /** Gathering over files succeeds exactly when they are clean, and then gathers each file with a block once. */
  lemma {:induction false} RecordFilesSpec(tree: SourceTree, parse: seq<string> -> YamlResult, data0: Data, files: seq<Path>)
    requires Registry(tree, parse, data0)
    ensures RecordFiles(tree, parse, data0, files).Ok? <==> Clean(tree, parse, data0, files)
    ensures RecordFiles(tree, parse, data0, files).Ok? ==>
      var data := RecordFiles(tree, parse, data0, files).value;
      Registry(tree, parse, data) && Names(data) == Names(data0) + MetaFiles(tree, parse, files)
    decreases |files|
  {
    if files == [] {
      assert MetaFiles(tree, parse, files) == {};
    } else {
      var init := files[..|files| - 1];
      var last := files[|files| - 1];
      assert files == init + [last];
      RecordFilesSpec(tree, parse, data0, init);
      CleanSnoc(tree, parse, data0, init, last);
      MetaFilesSnoc(tree, parse, init, last);
      var before := RecordFiles(tree, parse, data0, init);
      if before.Ok? && IsFile(tree, last) && LoadOf(tree, parse, last).Ok? && LoadOf(tree, parse, last).value.Some? {
        var d := before.value;
        var entry := (last, LoadOf(tree, parse, last).value.value);
        if last !in Names(d) {
          NamesSnoc(d, entry);
          var d2 := d + [entry];
          assert d2[|d|] == entry;
          forall i, j | 0 <= i < j < |d2| ensures PathKey(d2[i]) != PathKey(d2[j]) {
            if j < |d| {
              assert d2[i] == d[i] && d2[j] == d[j];
            } else {
              assert d2[i] == d[i];
              assert d[i].0 in Names(d);
            }
          }
          assert forall k :: 0 <= k < |d| ==> d2[k] == d[k];
        }
      }
    }
  }

  lemma {:induction false} RecordFilesConcat(tree: SourceTree, parse: seq<string> -> YamlResult, data: Data, p: seq<Path>, q: seq<Path>)
    ensures RecordFiles(tree, parse, data, p + q)
      == var a := RecordFiles(tree, parse, data, p); if a.Err? then a else RecordFiles(tree, parse, a.value, q)
    decreases |q|
  {
    if q == [] {
      assert p + q == p;
    } else {
      assert (p + q)[..|p + q| - 1] == p + q[..|q| - 1];
      assert (p + q)[|p + q| - 1] == q[|q| - 1];
      RecordFilesConcat(tree, parse, data, p, q[..|q| - 1]);
    }
  }

  /** Visiting the sources is gathering over the files they reach. */
  lemma {:induction false} RecordSourcesReach(tree: SourceTree, parse: seq<string> -> YamlResult, sources: seq<Path>)
    ensures RecordSources(tree, parse, sources) == RecordFiles(tree, parse, [], Reach(tree, sources))
    decreases |sources|
  {
    if sources != [] {
      var init := sources[..|sources| - 1];
      var source := sources[|sources| - 1];
      RecordSourcesReach(tree, parse, init);
      var visited := if IsFile(tree, source) then [source] else tree.glob(source);
      RecordFilesConcat(tree, parse, [], Reach(tree, init), visited);
      if IsFile(tree, source) {
        assert [source][..0] == [];
      }
    }
  }

  /** A sorted permutation of gathered entries is still a registry, strictly ascending by file name. */
  lemma SortedRegistry(tree: SourceTree, parse: seq<string> -> YamlResult, data: Data, r: Data)
    requires Registry(tree, parse, data) && multiset(r) == multiset(data) && Ascending(r, PathKey)
    ensures Registry(tree, parse, r) && Names(r) == Names(data) && StrictlyAscending(r, PathKey)
  {
    PermutationEntries(tree, parse, data, r);
    PermutationKeys(tree, parse, data, r);
    PermutationNames(data, r);
    AscendingDistinct(r, PathKey);
  }

  lemma PermutationEntries(tree: SourceTree, parse: seq<string> -> YamlResult, data: Data, r: Data)
    requires Registry(tree, parse, data) && multiset(r) == multiset(data)
    ensures forall k :: 0 <= k < |r| ==> HasMeta(tree, parse, r[k].0) && LoadOf(tree, parse, r[k].0) == Ok(Some(r[k].1))
  {
    forall k | 0 <= k < |r| ensures HasMeta(tree, parse, r[k].0) && LoadOf(tree, parse, r[k].0) == Ok(Some(r[k].1)) {
      assert r[k] in multiset(data);
    }
  }

  lemma PermutationKeys(tree: SourceTree, parse: seq<string> -> YamlResult, data: Data, r: Data)
    requires Registry(tree, parse, data) && multiset(r) == multiset(data)
    requires forall k :: 0 <= k < |r| ==> HasMeta(tree, parse, r[k].0) && LoadOf(tree, parse, r[k].0) == Ok(Some(r[k].1))
    ensures DistinctKeys(r, PathKey)
  {
    assert NoDuplicates(data) by {
      forall i, j | 0 <= i < j < |data| ensures data[i] != data[j] {
        assert PathKey(data[i]) != PathKey(data[j]);
      }
    }
    PermutationNoDuplicates(data, r);
    forall i, j | 0 <= i < j < |r| ensures PathKey(r[i]) != PathKey(r[j]) {
      assert r[i] != r[j];
    }
  }

  lemma PermutationNames(data: Data, r: Data)
    requires multiset(r) == multiset(data)
    ensures Names(r) == Names(data)
  {
    forall x ensures x in Names(r) <==> x in Names(data) {
      if x in Names(r) {
        var k :| 0 <= k < |r| && r[k].0 == x;
        assert r[k] in multiset(data);
      }
      if x in Names(data) {
        var k :| 0 <= k < |data| && data[k].0 == x;
        assert data[k] in multiset(r);
      }
    }
  }

  /**
   * sources_foreach succeeds exactly when every regular file it visits loads and no
   * file with a block is visited twice; it then hands over each file with a block
   * once, with that file's metadata, in strictly ascending order of file name.
   */
  lemma CollectedSpec(tree: SourceTree, parse: seq<string> -> YamlResult, pathname: seq<Path>, configured: seq<Path>)
    ensures var reach := Reach(tree, Roots(pathname, configured));
      var r := Collected(tree, parse, pathname, configured);
      (r.Ok? <==> Clean(tree, parse, [], reach))
      && (r.Ok? ==> StrictlyAscending(r.value, PathKey) && Registry(tree, parse, r.value)
                    && Names(r.value) == MetaFiles(tree, parse, reach))
  {
    var sources := Roots(pathname, configured);
    RecordSourcesReach(tree, parse, sources);
    RecordFilesSpec(tree, parse, [], Reach(tree, sources));
    var data := RecordSources(tree, parse, sources);
    if data.Ok? {
      SortedRegistry(tree, parse, data.value, SortBy(data.value, PathKey));
    }
  }
}
