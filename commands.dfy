/** The install and packages_list subcommands over the gathered metadata. */
module Commands {
  import opened Base
  import opened Paths
  import opened Meta
  import opened Ordering
  import opened Reconciler
  import opened ReconcilerFacts
  import opened Planner
  import opened Sources

  // install

  /** install_one for each gathered file in turn; the first exception ends the run. */
  function InstallAll(st: FsState, ops: PathOps, pairs: Data): (FsState, Outcome) {
    if pairs == [] then (st, Pass)
    else
      var before := InstallAll(st, ops, pairs[..|pairs| - 1]);
      var entry := pairs[|pairs| - 1];
      if before.1.Fail? then before else InstallOneSpec(before.0, ops, entry.0, entry.1)
  }

  /** The install subcommand: gather everything first, then install file by file. */
  function InstallSpec(st: FsState, ops: PathOps, tree: SourceTree, parse: seq<string> -> YamlResult,
                       pathname: seq<Path>, configured: seq<Path>): (FsState, Outcome) {
    var collected := Collected(tree, parse, pathname, configured);
    if collected.Err? then (st, Fail(collected.error)) else InstallAll(st, ops, collected.value)
  }

  lemma {:induction false} InstallAllFailed(st: FsState, ops: PathOps, pairs: Data, n: nat)
    requires n <= |pairs| && InstallAll(st, ops, pairs[..n]).1.Fail?
    ensures InstallAll(st, ops, pairs) == InstallAll(st, ops, pairs[..n])
    decreases |pairs| - n
  {
    if n < |pairs| {
      assert pairs[..n + 1][..n] == pairs[..n];
      InstallAllFailed(st, ops, pairs, n + 1);
    } else {
      assert pairs[..n] == pairs;
    }
  }

  /** One more file: install_one from the state the earlier files left. */
  lemma InstallAllStep(st: FsState, ops: PathOps, pairs: Data, k: nat)
    requires k < |pairs| && InstallAll(st, ops, pairs[..k]).1.Pass?
    ensures InstallAll(st, ops, pairs[..k + 1])
      == InstallOneSpec(InstallAll(st, ops, pairs[..k]).0, ops, pairs[k].0, pairs[k].1)
  {
    assert pairs[..k + 1][..k] == pairs[..k];
  }

  /** subc_install */
  method Install(fs: FileSystem, ops: PathOps, tree: SourceTree, parse: seq<string> -> YamlResult,
                 pathname: seq<Path>, configured: seq<Path>) returns (o: Outcome)
    modifies fs
    ensures (fs.State(), o) == InstallSpec(old(fs.State()), ops, tree, parse, pathname, configured)
  {
    var collected := SourcesForeach(tree, parse, pathname, configured);
    if collected.Err? {
      return Fail(collected.error);
    }
    var pairs := collected.value;
    o := Pass;
    for k := 0 to |pairs|
      invariant o == Pass && (fs.State(), o) == InstallAll(old(fs.State()), ops, pairs[..k])
    {
      InstallAllStep(old(fs.State()), ops, pairs, k);
      o := InstallOne(fs, ops, pairs[k].0, pairs[k].1);
      if o.Fail? {
        InstallAllFailed(old(fs.State()), ops, pairs, k + 1);
        return;
      }
    }
    assert pairs[..|pairs|] == pairs;
  }

  /** Records and warnings are only ever appended during a run. */
  lemma {:induction false} InstallAllAppends(st: FsState, ops: PathOps, pairs: Data)
    ensures Appends(st, InstallAll(st, ops, pairs).0)
    decreases |pairs|
  {
    if pairs != [] {
      var before := InstallAll(st, ops, pairs[..|pairs| - 1]);
      InstallAllAppends(st, ops, pairs[..|pairs| - 1]);
      if before.1.Pass? {
        var entry := pairs[|pairs| - 1];
        InstallOneOrder(before.0, ops, entry.0, entry.1);
        AppendsTrans(st, before.0, InstallAll(st, ops, pairs).0);
      }
    }
  }

  /**
   * Nothing is touched unless every source file loads: when a visited file fails to
   * load or a file with a block is visited twice, the run fails with the filesystem,
   * the log and the warnings as they were.
   */
  lemma InstallGathersFirst(st: FsState, ops: PathOps, tree: SourceTree, parse: seq<string> -> YamlResult,
                            pathname: seq<Path>, configured: seq<Path>)
    requires !Clean(tree, parse, [], Reach(tree, Roots(pathname, configured)))
    ensures InstallSpec(st, ops, tree, parse, pathname, configured).0 == st
    ensures InstallSpec(st, ops, tree, parse, pathname, configured).1.Fail?
  {
    CollectedSpec(tree, parse, pathname, configured);
  }

  // packages_list

  /** The only distribution whose package key is known. */
  const Debian: string := "debian"

  /** What the dpkg key of one file lists: the items of a list; any other value lists nothing. */
  function ListedPackages(md: Metadata): seq<Value> {
    if md.dpkg.Some? && md.dpkg.value.List? then md.dpkg.value.items else []
  }

  /** result.update(items): add each new string; note whether an item was anything but a string. */
  function AddAll(acc: (seq<string>, bool), items: seq<Value>): (seq<string>, bool) {
    if items == [] then acc
    else
      var before := AddAll(acc, items[..|items| - 1]);
      match items[|items| - 1]
      case Str(x) => if x in before.0 then before else (before.0 + [x], before.1)
      case _ => (before.0, false)
  }

  /** The union of every file's listed packages, in first-seen order. */
  function Union(pairs: Data): (seq<string>, bool) {
    if pairs == [] then ([], true)
    else AddAll(Union(pairs[..|pairs| - 1]), ListedPackages(pairs[|pairs| - 1].1))
  }

  /** The packages_list subcommand: the sorted union, printed one name per line. */
  function PackagesSpec(tree: SourceTree, parse: seq<string> -> YamlResult, pathname: seq<Path>,
                        configured: seq<Path>, distroId: string): Result<seq<string>> {
    if distroId != Debian then Err(UnknownDistro(distroId))
    else
      var collected := Collected(tree, parse, pathname, configured);
      if collected.Err? then Err(collected.error)
      else
        var union := Union(collected.value);
        if !union.1 then Err(UnsortablePackage) else Ok(SortBy(union.0, Identity))
  }

  /** subc_packages_list */
  method PackagesList(tree: SourceTree, parse: seq<string> -> YamlResult, pathname: seq<Path>,
                      configured: seq<Path>, distroId: string) returns (r: Result<seq<string>>)
    ensures r == PackagesSpec(tree, parse, pathname, configured, distroId)
  {
    if distroId != Debian {
      return Err(UnknownDistro(distroId));
    }
    var collected := SourcesForeach(tree, parse, pathname, configured);
    if collected.Err? {
      return Err(collected.error);
    }
    var pairs := collected.value;
    var names: seq<string> := [];
    var allStrings := true;
    for k := 0 to |pairs|
      invariant (names, allStrings) == Union(pairs[..k])
    {
      assert pairs[..k + 1][..k] == pairs[..k];
      names, allStrings := AddPackages(names, allStrings, ListedPackages(pairs[k].1));
    }
    assert pairs[..|pairs|] == pairs;
    if !allStrings {
      return Err(UnsortablePackage);
    }
    return Ok(SortBy(names, Identity));
  }

  /** result.update(items) */
  method AddPackages(names: seq<string>, allStrings: bool, items: seq<Value>) returns (names': seq<string>, allStrings': bool)
    ensures (names', allStrings') == AddAll((names, allStrings), items)
  {
    names', allStrings' := names, allStrings;
    for m := 0 to |items|
      invariant (names', allStrings') == AddAll((names, allStrings), items[..m])
    {
      assert items[..m + 1][..m] == items[..m];
      match items[m]
      case Str(x) =>
        if x !in names' {
          names' := names' + [x];
        }
      case _ =>
        allStrings' := false;
    }
    assert items[..|items|] == items;
  }

  /** x is listed by some file. */
  ghost predicate Listed(pairs: Data, x: string) {
    exists k :: 0 <= k < |pairs| && Str(x) in ListedPackages(pairs[k].1)
  }

  ghost predicate AllStrings(items: seq<Value>) {
    forall i :: 0 <= i < |items| ==> items[i].Str?
  }

  lemma {:induction false} AddAllSpec(acc: (seq<string>, bool), items: seq<Value>)
    requires NoDuplicates(acc.0)
    ensures var r := AddAll(acc, items);
      NoDuplicates(r.0) && forall x :: x in r.0 <==> x in acc.0 || Str(x) in items
    decreases |items|
  {
    if items != [] {
      var init := items[..|items| - 1];
      AddAllSpec(acc, init);
      assert items == init + [items[|items| - 1]];
      assert forall v :: v in items <==> v in init || v == items[|items| - 1];
    }
  }

  lemma {:induction false} AddAllStrings(acc: (seq<string>, bool), items: seq<Value>)
    ensures AddAll(acc, items).1 <==> acc.1 && AllStrings(items)
    decreases |items|
  {
    if items != [] {
      var init := items[..|items| - 1];
      AddAllStrings(acc, init);
      assert AllStrings(items) <==> AllStrings(init) && items[|items| - 1].Str?;
    }
  }

  /** The union holds each listed string once. */
  lemma {:induction false} UnionSpec(pairs: Data)
    ensures NoDuplicates(Union(pairs).0)
    ensures forall x :: x in Union(pairs).0 <==> Listed(pairs, x)
    decreases |pairs|
  {
    if pairs != [] {
      var init := pairs[..|pairs| - 1];
      var last := pairs[|pairs| - 1];
      UnionSpec(init);
      AddAllSpec(Union(init), ListedPackages(last.1));
      forall x ensures Listed(pairs, x) <==> Listed(init, x) || Str(x) in ListedPackages(last.1) {
        if Listed(pairs, x) {
          var k :| 0 <= k < |pairs| && Str(x) in ListedPackages(pairs[k].1);
          if k < |init| {
            assert Str(x) in ListedPackages(init[k].1);
          }
        }
        if Listed(init, x) {
          var k :| 0 <= k < |init| && Str(x) in ListedPackages(init[k].1);
          assert pairs[k] == init[k];
        }
      }
    }
  }

  /** The union notes whether every listed item was a string. */
  lemma {:induction false} UnionStrings(pairs: Data)
    ensures Union(pairs).1 <==> forall k :: 0 <= k < |pairs| ==> AllStrings(ListedPackages(pairs[k].1))
    decreases |pairs|
  {
    if pairs != [] {
      var init := pairs[..|pairs| - 1];
      var last := pairs[|pairs| - 1];
      UnionStrings(init);
      AddAllStrings(Union(init), ListedPackages(last.1));
      assert forall k :: 0 <= k < |init| ==> pairs[k] == init[k];
    }
  }

  /**
   * packages_list prints, in strictly ascending order, exactly the strings that some
   * gathered file lists under dpkg; it fails when some listed item is not a string,
   * and refuses any distribution but Debian.
   */
  lemma PackagesListing(tree: SourceTree, parse: seq<string> -> YamlResult, pathname: seq<Path>,
                        configured: seq<Path>, distroId: string)
    ensures var r := PackagesSpec(tree, parse, pathname, configured, distroId);
      var collected := Collected(tree, parse, pathname, configured);
      (distroId != Debian ==> r == Err(UnknownDistro(distroId)))
      && (distroId == Debian && collected.Ok? ==>
            (r.Ok? <==> forall k :: 0 <= k < |collected.value| ==> AllStrings(ListedPackages(collected.value[k].1))))
      && (r.Ok? ==> Increasing(r.value) && forall x :: x in r.value <==> Listed(collected.value, x))
  {
    var collected := Collected(tree, parse, pathname, configured);
    if distroId == Debian && collected.Ok? {
      var union := Union(collected.value);
      UnionSpec(collected.value);
      UnionStrings(collected.value);
      SortIncreasing(union.0);
      var sorted := SortBy(union.0, Identity);
      forall x ensures x in sorted <==> x in union.0 {
        assert x in sorted <==> x in multiset(sorted);
        assert x in union.0 <==> x in multiset(union.0);
      }
    }
  }
}
