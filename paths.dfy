/**
 * POSIX path arithmetic as Python's posixpath module defines it, on plain strings.
 * Paths are compared as strings: nothing here normalises "a//b", "a/./b" or a trailing slash.
 */
module Paths {

  type Path = string

  /**
   * The path functions whose results depend on the user's home directory and the
   * process's working directory; the model leaves them uninterpreted.
   */
  datatype PathOps = PathOps(
    expandUser: Path -> Path,       // os.path.expanduser
    absPath: Path -> Path,          // os.path.abspath
    relPath: (Path, Path) -> Path)  // os.path.relpath(path, start)

  /** str.rfind(c): the index of the last c in s, or -1 when there is none. */
  function RFind(s: string, c: char): (r: int)
    ensures -1 <= r < |s|
    ensures r >= 0 ==> s[r] == c
    ensures forall j :: r < j < |s| ==> s[j] != c
  {
    if |s| == 0 then -1
    else if s[|s| - 1] == c then |s| - 1
    else RFind(s[..|s| - 1], c)
  }

  predicate AllChar(s: string, c: char) {
    forall i :: 0 <= i < |s| ==> s[i] == c
  }

  /** str.rstrip(c): s without its trailing run of c. */
  function RStripChar(s: string, c: char): (r: string)
    ensures |r| <= |s| && r == s[..|r|]
    ensures r == "" || r[|r| - 1] != c
    ensures forall i :: |r| <= i < |s| ==> s[i] == c
  {
    if |s| > 0 && s[|s| - 1] == c then RStripChar(s[..|s| - 1], c) else s
  }

  /** os.path.basename: everything after the last '/'. */
  function Basename(p: Path): (b: Path)
    ensures |b| <= |p| && p == p[..|p| - |b|] + b
    ensures '/' !in b
  {
    p[RFind(p, '/') + 1..]
  }

  /** The base name is the whole path or starts right after a '/': it runs from the last slash. */
  lemma BasenameAfterSlash(p: Path)
    ensures var b := Basename(p);
      |b| == |p| || p[|p| - |b| - 1] == '/'
  {
  }

  /**
   * os.path.dirname: everything up to the last '/', with the trailing slashes
   * removed unless nothing but slashes is left.
   */
  function Dirname(p: Path): (d: Path)
    ensures |d| <= |p| && d == p[..|d|]
    ensures Basename(p) != "" ==> |d| < |p|
    ensures '/' !in p ==> d == ""
    ensures d == "" || d[|d| - 1] != '/' || AllChar(d, '/')
  {
    var head := p[..RFind(p, '/') + 1];
    if head != "" && !AllChar(head, '/') then RStripChar(head, '/') else head
  }

  /**
   * The directory part ends at or before the start of the base name, with only
   * slashes in between; it is empty only for a path without '/', and when it is
   * all slashes (the root) it runs up to the base name.
   */
  lemma DirnameSlashes(p: Path)
    ensures |Dirname(p)| <= |p| - |Basename(p)|
    ensures '/' in p ==> Dirname(p) != ""
    ensures Dirname(p) != "" && AllChar(Dirname(p), '/') ==> |Dirname(p)| == |p| - |Basename(p)|
    ensures var d := Dirname(p);
      forall i :: |d| <= i < |p| - |Basename(p)| ==> p[i] == '/'
  {
    var head := p[..RFind(p, '/') + 1];
    assert |head| == |p| - |Basename(p)|;
    if head != "" && !AllChar(head, '/') {
      var d := RStripChar(head, '/');
      assert forall i :: |d| <= i < |head| ==> p[i] == head[i];
    }
  }

  /** os.path.join(a, b) for two components. */
  function Join(a: Path, b: Path): Path {
    if |b| > 0 && b[0] == '/' then b
    else if a == "" || a[|a| - 1] == '/' then a + b
    else a + "/" + b
  }

  /**
   * os.path.splitext: the extension runs from the last '.' of the base name,
   * unless every character of the base name before that dot is itself a dot.
   * The base name starts just after the last '/', at RFind(p, '/') + 1.
   */
  function SplitExt(p: Path): (parts: (Path, Path))
    ensures parts.0 + parts.1 == p
    ensures parts.1 == "" || (parts.1[0] == '.' && '/' !in parts.1 && '.' !in parts.1[1..])
    ensures parts.1 != "" <==> DotAfterStem(p, RFind(p, '/') + 1)
  {
    var sep := RFind(p, '/');
    var dot := RFind(p, '.');
    LastDotAfter(p, sep);
    if dot > sep && exists k :: sep + 1 <= k < dot && p[k] != '.' then
      ExtensionShape(p, sep, dot);
      (p[..dot], p[dot..])
    else (p, "")
  }

  /** What follows the last dot, when that dot comes after the last slash, holds neither. */
  lemma ExtensionShape(p: string, sep: int, dot: int)
    requires sep == RFind(p, '/') && dot == RFind(p, '.') && dot > sep
    ensures p[dot..] != "" && p[dot..][0] == '.' && '/' !in p[dot..] && '.' !in p[dot..][1..]
  {
    var e := p[dot..];
    forall j | 0 <= j < |e| ensures e[j] != '/' && (j > 0 ==> e[j] != '.') {
      assert e[j] == p[dot + j];
    }
    assert '.' !in e[1..] by {
      forall j | 0 <= j < |e[1..]| ensures e[1..][j] != '.' {
        assert e[1..][j] == e[j + 1];
      }
    }
  }

  /** Some dot at or after `from` follows a character other than a dot, itself at or after `from`. */
  predicate DotAfterStem(p: string, from: nat) {
    exists i, k :: from <= k < i < |p| && p[k] != '.' && p[i] == '.'
  }

  /**
   * The last dot starts an extension after position `from` exactly when some dot
   * after `from` has a character other than a dot somewhere before it.
   */
  lemma LastDotAfter(p: string, from: int)
    requires -1 <= from
    ensures var dot := RFind(p, '.');
      (dot > from && exists k :: from + 1 <= k < dot && p[k] != '.') <==> DotAfterStem(p, from + 1)
  {
    var dot := RFind(p, '.');
    if DotAfterStem(p, from + 1) {
      var i, k :| from + 1 <= k < i < |p| && p[k] != '.' && p[i] == '.';
      assert i <= dot;
      assert from + 1 <= k < dot && p[k] != '.';
    }
    if dot > from && exists k :: from + 1 <= k < dot && p[k] != '.' {
      var k :| from + 1 <= k < dot && p[k] != '.';
      assert from + 1 <= k < dot < |p| && p[k] != '.' && p[dot] == '.';
    }
  }

  /** Appending characters other than c does not move the last c. */
  lemma {:induction false} RFindAppend(s: string, t: string, c: char)
    requires c !in t
    ensures RFind(s + t, c) == RFind(s, c)
  {
    if t != [] {
      var u := s + t;
      assert u[|u| - 1] == t[|t| - 1];
      assert u[..|u| - 1] == s + t[..|t| - 1];
      RFindAppend(s, t[..|t| - 1], c);
    } else {
      assert s + t == s;
    }
  }

  /** Joining a single component to a directory yields a path whose base name is that component. */
  lemma JoinBasename(a: Path, b: Path)
    requires '/' !in b
    ensures Basename(Join(a, b)) == b
  {
    var y := if a == "" then "" else if a[|a| - 1] == '/' then a else a + "/";
    assert Join(a, b) == y + b;
    RFindAppend(y, b, '/');
    if y != "" {
      assert RFind(y, '/') == |y| - 1;
    }
  }

  /**
   * A name made of a stem and a one-dot extension under some directory splits
   * at that extension: splitext("d/tool.py") is ("d/tool", ".py").
   */
  lemma SplitExtOfName(dir: Path, stem: string, ext: string)
    requires '/' !in stem && exists k :: 0 <= k < |stem| && stem[k] != '.'
    requires |ext| > 0 && ext[0] == '.' && '/' !in ext && '.' !in ext[1..]
    ensures SplitExt(dir + "/" + stem + ext) == (dir + "/" + stem, ext)
  {
    var p := dir + "/" + stem + ext;
    var k :| 0 <= k < |stem| && stem[k] != '.';
    assert p == (dir + "/") + (stem + ext);
    assert '/' !in stem + ext by {
      forall i | 0 <= i < |stem + ext| ensures (stem + ext)[i] != '/' {
        if i >= |stem| { assert (stem + ext)[i] == ext[i - |stem|]; }
      }
    }
    RFindAppend(dir + "/", stem + ext, '/');
    assert RFind(dir + "/", '/') == |dir|;
    assert p == (dir + "/" + stem + ".") + ext[1..];
    RFindAppend(dir + "/" + stem + ".", ext[1..], '.');
    var dot := |dir| + 1 + |stem|;
    assert RFind(dir + "/" + stem + ".", '.') == dot;
    assert p[|dir| + 1 + k] == stem[k];
    assert p[..dot] == dir + "/" + stem;
    assert p[dot..] == ext;
  }

  /** The directory of a name placed under a directory written without a trailing slash is that directory. */
  lemma DirnameOfName(dir: Path, name: string)
    requires dir != "" && dir[|dir| - 1] != '/' && '/' !in name
    ensures Dirname(dir + "/" + name) == dir
  {
    var p := dir + "/" + name;
    assert p == (dir + "/") + name;
    RFindAppend(dir + "/", name, '/');
    assert RFind(dir + "/", '/') == |dir|;
    assert p[..|dir| + 1] == dir + "/";
    assert !AllChar(dir + "/", '/') by {
      assert (dir + "/")[|dir| - 1] != '/';
    }
    var r := RStripChar(dir + "/", '/');
    assert r == (dir + "/")[..|r|];
  }
}
