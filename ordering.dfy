/** Python's ordering of strings and the sorted() builtin over it. */
module Ordering {
  /** a < b for Python strings: the first differing code point decides, and a proper prefix comes first. */
  predicate Below(a: string, b: string)
    decreases |a|
  {
    if a == [] then b != []
    else if b == [] then false
    else if a[0] != b[0] then a[0] < b[0]
    else Below(a[1..], b[1..])
  }

  lemma {:induction false} BelowIrreflexive(a: string)
    ensures !Below(a, a)
    decreases |a|
  {
    if a != [] {
      BelowIrreflexive(a[1..]);
    }
  }

  lemma {:induction false} BelowTransitive(a: string, b: string, c: string)
    requires Below(a, b) && Below(b, c)
    ensures Below(a, c)
    decreases |a|
  {
    if a != [] && a[0] == b[0] && b[0] == c[0] {
      BelowTransitive(a[1..], b[1..], c[1..]);
    }
  }

  /** Any two different strings are ordered one way or the other. */
  lemma {:induction false} BelowTotal(a: string, b: string)
    requires a != b
    ensures Below(a, b) || Below(b, a)
    decreases |a|
  {
    if a != [] && b != [] && a[0] == b[0] {
      assert a == [a[0]] + a[1..] && b == [b[0]] + b[1..];
      BelowTotal(a[1..], b[1..]);
    }
  }

  lemma {:induction false} BelowAsymmetric(a: string, b: string)
    requires Below(a, b)
    ensures !Below(b, a)
    decreases |a|
  {
    if a != [] && a[0] == b[0] {
      BelowAsymmetric(a[1..], b[1..]);
    }
  }

  /** Not below is transitive too: the order is total. */
  lemma AtMostTransitive(a: string, b: string, c: string)
    requires !Below(b, a) && !Below(c, b)
    ensures !Below(c, a)
  {
    if a != b {
      BelowTotal(a, b);
    }
    if b != c {
      BelowTotal(b, c);
    }
    if a != b && b != c {
      BelowTransitive(a, b, c);
    }
    if Below(c, a) {
      if a == b {
        BelowAsymmetric(c, a);
      } else {
        BelowAsymmetric(c, b);
        BelowTransitive(c, a, b);
      }
    }
  }

  /** s is in ascending order of key, equal keys allowed. */
  ghost predicate Ascending<T>(s: seq<T>, key: T -> string) {
    forall i, j :: 0 <= i < j < |s| ==> !Below(key(s[j]), key(s[i]))
  }

  /** s is in strictly ascending order of key. */
  ghost predicate StrictlyAscending<T>(s: seq<T>, key: T -> string) {
    forall i, j :: 0 <= i < j < |s| ==> Below(key(s[i]), key(s[j]))
  }

  /** No two elements of s share a key. */
  ghost predicate DistinctKeys<T>(s: seq<T>, key: T -> string) {
    forall i, j :: 0 <= i < j < |s| ==> key(s[i]) != key(s[j])
  }

  function Insert<T>(x: T, s: seq<T>, key: T -> string): (r: seq<T>)
    requires Ascending(s, key)
    ensures Ascending(r, key) && multiset(r) == multiset(s) + multiset{x}
  {
    if s == [] then [x]
    else if !Below(key(s[0]), key(x)) then
      InsertFirst(x, s, key);
      [x] + s
    else
      assert s == [s[0]] + s[1..];
      var rest := Insert(x, s[1..], key);
      InsertAfter(x, s, key, rest);
      [s[0]] + rest
  }

  lemma InsertFirst<T>(x: T, s: seq<T>, key: T -> string)
    requires Ascending(s, key) && s != [] && !Below(key(s[0]), key(x))
    ensures Ascending([x] + s, key)
  {
    var r := [x] + s;
    forall i, j | 0 <= i < j < |r| ensures !Below(key(r[j]), key(r[i])) {
      if i == 0 && j > 1 {
        AtMostTransitive(key(x), key(s[0]), key(s[j - 1]));
      }
    }
  }

  lemma InsertAfter<T>(x: T, s: seq<T>, key: T -> string, rest: seq<T>)
    requires Ascending(s, key) && s != [] && Below(key(s[0]), key(x))
    requires Ascending(rest, key) && multiset(rest) == multiset(s[1..]) + multiset{x}
    ensures Ascending([s[0]] + rest, key)
  {
    var r := [s[0]] + rest;
    forall j | 0 < j < |r| ensures !Below(key(r[j]), key(s[0])) {
      assert r[j] in multiset(rest);
      if r[j] in multiset(s[1..]) {
        var k :| 0 <= k < |s[1..]| && s[1..][k] == r[j];
        assert s[k + 1] == r[j];
      } else {
        BelowAsymmetric(key(s[0]), key(x));
      }
    }
  }

  /** sorted(s, key=key): an ascending permutation of s. */
  function SortBy<T>(s: seq<T>, key: T -> string): (r: seq<T>)
    ensures Ascending(r, key) && multiset(r) == multiset(s)
  {
    if s == [] then []
    else
      assert s == [s[0]] + s[1..];
      Insert(s[0], SortBy(s[1..], key), key)
  }

  /** Sorting elements whose keys are distinct gives a strictly ascending sequence. */
  lemma AscendingDistinct<T>(s: seq<T>, key: T -> string)
    requires Ascending(s, key) && DistinctKeys(s, key)
    ensures StrictlyAscending(s, key)
  {
    forall i, j | 0 <= i < j < |s| ensures Below(key(s[i]), key(s[j])) {
      BelowTotal(key(s[i]), key(s[j]));
    }
  }

  /** Strictly ascending strings. */
  ghost predicate Increasing(a: seq<string>) {
    forall i, j :: 0 <= i < j < |a| ==> Below(a[i], a[j])
  }

  /** Two strictly ascending sequences of strings with the same elements are the same sequence. */
  lemma {:induction false} IncreasingUnique(a: seq<string>, b: seq<string>)
    requires Increasing(a) && Increasing(b) && multiset(a) == multiset(b)
    ensures a == b
    decreases |a|
  {
    assert |a| == |multiset(a)| == |b|;
    if a != [] {
      HeadsEqual(a, b);
      assert a == [a[0]] + a[1..] && b == [b[0]] + b[1..];
      assert multiset(a[1..]) == multiset(a) - multiset{a[0]};
      assert multiset(b[1..]) == multiset(b) - multiset{b[0]};
      assert multiset(a[1..]) == multiset(b[1..]);
      IncreasingUnique(a[1..], b[1..]);
    }
  }

  lemma HeadsEqual(a: seq<string>, b: seq<string>)
    requires Increasing(a) && Increasing(b) && a != [] && b != [] && multiset(a) == multiset(b)
    ensures a[0] == b[0]
  {
    assert a[0] in multiset(b) && b[0] in multiset(a);
    var k :| 0 <= k < |b| && b[k] == a[0];
    var j :| 0 <= j < |a| && a[j] == b[0];
    assert a[0] == b[0] || Below(b[0], a[0]);
    assert a[0] == b[0] || Below(a[0], b[0]);
    if Below(a[0], b[0]) {
      BelowAsymmetric(a[0], b[0]);
    }
  }

  /** No element occurs twice. */
  ghost predicate NoDuplicates<T>(s: seq<T>) {
    forall i, j :: 0 <= i < j < |s| ==> s[i] != s[j]
  }

  lemma {:induction false} CountAtMostOne<T>(s: seq<T>, x: T)
    requires NoDuplicates(s)
    ensures multiset(s)[x] <= 1
    decreases |s|
  {
    if s != [] {
      var init := s[..|s| - 1];
      assert s == init + [s[|s| - 1]];
      CountAtMostOne(init, x);
      if x == s[|s| - 1] {
        assert x !in init;
      }
    }
  }

  lemma CountTwo<T>(s: seq<T>, i: nat, j: nat)
    requires i < j < |s| && s[i] == s[j]
    ensures multiset(s)[s[i]] >= 2
  {
    assert s == s[..j] + s[j..];
    assert s[i] in s[..j];
    assert s[j..][0] == s[j];
  }

  /** A permutation of a sequence without duplicates has none either. */
  lemma PermutationNoDuplicates<T>(s: seq<T>, r: seq<T>)
    requires NoDuplicates(s) && multiset(r) == multiset(s)
    ensures NoDuplicates(r)
  {
    forall i, j | 0 <= i < j < |r| ensures r[i] != r[j] {
      CountAtMostOne(s, r[i]);
      if r[i] == r[j] {
        CountTwo(r, i, j);
      }
    }
  }

  function Identity(s: string): string {
    s
  }

  /** Sorting strings without duplicates gives them in strictly ascending order. */
  lemma SortIncreasing(s: seq<string>)
    requires NoDuplicates(s)
    ensures Increasing(SortBy(s, Identity))
  {
    var r := SortBy(s, Identity);
    PermutationNoDuplicates(s, r);
    forall i, j | 0 <= i < j < |r| ensures Below(r[i], r[j]) {
      assert !Below(Identity(r[j]), Identity(r[i]));
      BelowTotal(r[i], r[j]);
    }
  }
}
