/** The `-cp` argument: the runtime classpath files and then the jar task's
    outputs, gathered in an insertion-ordered set (`LinkedHashSet`) and joined
    with ':'. Files are given by their absolute path strings. */
module Classpath {
  import opened Strings

  predicate NoDuplicates(s: seq<string>) {
    forall i, j :: 0 <= i < j < |s| ==> s[i] != s[j]
  }

  /** The contents, in iteration order, of an insertion-ordered set after adding
      the elements of `s` one after another: an element already present is
      ignored, a new one goes at the end. */
  function Dedup(s: seq<string>): (d: seq<string>)
    ensures NoDuplicates(d)
    ensures forall x :: x in d <==> x in s
  {
    if s == [] then []
    else
      var d := Dedup(s[..|s| - 1]);
      var x := s[|s| - 1];
      assert s == s[..|s| - 1] + [x];
      if x in d then d else d + [x]
  }

  /** `r` lists elements of `s` in the order of their first occurrence in `s`. */
  predicate InFirstOccurrenceOrder(s: seq<string>, r: seq<string>) {
    && (forall k :: 0 <= k < |r| ==> r[k] in s)
    && (forall i, j :: 0 <= i < j < |r| ==> IndexOf(s, r[i]) < IndexOf(s, r[j]))
  }

  /** Each element keeps the place where it first appeared. */
  lemma {:induction false} DedupOrder(s: seq<string>)
    ensures InFirstOccurrenceOrder(s, Dedup(s))
    decreases |s|
  {
    if s != [] {
      var p, x := s[..|s| - 1], s[|s| - 1];
      assert s == p + [x];
      var d := Dedup(p);
      DedupOrder(p);
      forall y | y in p
        ensures IndexOf(s, y) == IndexOf(p, y) < |p|
      {
        IndexOfPrefix(p, [x], y);
      }
      if x !in d {
        IndexOfAfter(p, x, []);
        assert p + [x] + [] == s;
        var e := Dedup(s);
        assert e == d + [x];
        forall i, j | 0 <= i < j < |e|
          ensures IndexOf(s, e[i]) < IndexOf(s, e[j])
        {
          if j < |d| {
            assert IndexOf(p, d[i]) < IndexOf(p, d[j]);
          }
        }
      }
    }
  }

  /** Adding more elements keeps the earlier ones first, in the same order;
      whatever comes after them is new. */
  lemma {:induction false} DedupAppend(a: seq<string>, b: seq<string>)
    ensures |Dedup(a)| <= |Dedup(a + b)|
    ensures Dedup(a + b)[..|Dedup(a)|] == Dedup(a)
    ensures forall k :: |Dedup(a)| <= k < |Dedup(a + b)| ==> Dedup(a + b)[k] in b && Dedup(a + b)[k] !in a
    decreases |b|
  {
    if b == [] {
      assert a + b == a;
    } else {
      var b', y := b[..|b| - 1], b[|b| - 1];
      DedupAppend(a, b');
      assert (a + b)[..|a + b| - 1] == a + b';
      assert (a + b)[|a + b| - 1] == y;
    }
  }

  /** An insertion-ordered set whose elements are distinct is unchanged by rebuilding. */
  lemma {:induction false} DedupOfDistinct(s: seq<string>)
    requires NoDuplicates(s)
    ensures Dedup(s) == s
    decreases |s|
  {
    if s != [] {
      var p := s[..|s| - 1];
      DedupOfDistinct(p);
      assert s[|s| - 1] !in p;
      assert s == p + [s[|s| - 1]];
    }
  }

  /** Deduplicating twice is deduplicating once. */
  lemma DedupIdempotent(s: seq<string>)
    ensures Dedup(Dedup(s)) == Dedup(s)
  {
    DedupOfDistinct(Dedup(s));
  }

  /** The head of a list in first-occurrence order occurs in `s` no later than any other element. */
  lemma HeadFirst(s: seq<string>, r: seq<string>, x: string)
    requires InFirstOccurrenceOrder(s, r)
    requires x in r
    ensures IndexOf(s, r[0]) <= IndexOf(s, x)
  {
    var i :| 0 <= i < |r| && r[i] == x;
    if 0 < i {
      assert IndexOf(s, r[0]) < IndexOf(s, r[i]);
    }
  }

  /** Lists with the same elements are empty together. */
  lemma EmptyTogether(r: seq<string>, d: seq<string>)
    requires forall x :: x in r <==> x in d
    ensures r == [] <==> d == []
  {
    if r != [] {
      assert r[0] in d;
    }
    if d != [] {
      assert d[0] in r;
    }
  }

  /** Dropping the common head of two duplicate-free lists with the same
      elements leaves two lists with the same elements. */
  lemma SameTails(r: seq<string>, d: seq<string>)
    requires NoDuplicates(r) && NoDuplicates(d)
    requires forall x :: x in r <==> x in d
    requires r != [] && d != [] && r[0] == d[0]
    ensures forall x :: x in r[1..] <==> x in d[1..]
  {
    forall x
      ensures x in r[1..] ==> x in d[1..]
      ensures x in d[1..] ==> x in r[1..]
    {
      if x in r[1..] {
        var i :| 0 <= i < |r[1..]| && r[1..][i] == x;
        assert r[i + 1] == x && x != r[0] && x in d;
        var j :| 0 <= j < |d| && d[j] == x;
        assert d[1..][j - 1] == x;
      }
      if x in d[1..] {
        var i :| 0 <= i < |d[1..]| && d[1..][i] == x;
        assert d[i + 1] == x && x != d[0] && x in r;
        var j :| 0 <= j < |r| && r[j] == x;
        assert r[1..][j - 1] == x;
      }
    }
  }

  /** Two duplicate-free lists with the same elements, both in first-occurrence
      order of `s`, are equal. */
  lemma {:induction false} FirstOccurrenceOrderUnique(s: seq<string>, r: seq<string>, d: seq<string>)
    requires NoDuplicates(r) && NoDuplicates(d)
    requires forall x :: x in r <==> x in d
    requires InFirstOccurrenceOrder(s, r) && InFirstOccurrenceOrder(s, d)
    ensures r == d
    decreases |r|
  {
    EmptyTogether(r, d);
    if r != [] {
      assert r[0] in d && d[0] in r;
      HeadFirst(s, r, d[0]);
      HeadFirst(s, d, r[0]);
      assert r[0] == s[IndexOf(s, r[0])] == s[IndexOf(s, d[0])] == d[0];
      SameTails(r, d);
      FirstOccurrenceOrderUnique(s, r[1..], d[1..]);
      assert r == [r[0]] + r[1..];
      assert d == [d[0]] + d[1..];
    }
  }

  /** `Dedup(s)` is the only duplicate-free list of the elements of `s` in
      first-occurrence order. */
  lemma DedupCharacterization(s: seq<string>, r: seq<string>)
    ensures r == Dedup(s) <==>
      NoDuplicates(r) && (forall x :: x in r <==> x in s) && InFirstOccurrenceOrder(s, r)
  {
    DedupOrder(s);
    if NoDuplicates(r) && (forall x :: x in r <==> x in s) && InFirstOccurrenceOrder(s, r) {
      FirstOccurrenceOrderUnique(s, r, Dedup(s));
    }
  }

  /** `LinkedHashSet.addAll`: adds `files` one by one to the set whose iteration
      order is `entries` and whose membership is `seen`; `added` is what was
      added before, in order. */
  method AddAll(entries: seq<string>, seen: set<string>, files: seq<string>, ghost added: seq<string>)
    returns (entries': seq<string>, seen': set<string>)
    requires entries == Dedup(added)
    requires forall x :: x in seen <==> x in entries
    ensures entries' == Dedup(added + files)
    ensures forall x :: x in seen' <==> x in entries'
  {
    entries', seen' := entries, seen;
    var i := 0;
    assert added + files[..0] == added;
    while i < |files|
      invariant 0 <= i <= |files|
      invariant entries' == Dedup(added + files[..i])
      invariant forall x :: x in seen' <==> x in entries'
    {
      var f := files[i];
      ghost var before := added + files[..i];
      assert (before + [f])[..|before|] == before;
      assert added + files[..i + 1] == before + [f];
      if f !in seen' {
        entries' := entries' + [f];
        seen' := seen' + {f};
      }
      i := i + 1;
    }
    assert files[..|files|] == files;
  }

  /** The classpath argument the task passes to `-cp`: empty for no files, and
      otherwise led by the first file added. */
  function ClasspathArgument(runtimeClasspath: seq<string>, jarOutputs: seq<string>): (arg: string)
    ensures runtimeClasspath == [] && jarOutputs == [] ==> arg == ""
    ensures runtimeClasspath + jarOutputs != [] ==> (runtimeClasspath + jarOutputs)[0] <= arg
  {
    var all := runtimeClasspath + jarOutputs;
    var entries := Dedup(all);
    if all == [] then
      Join(entries, ':')
    else
      DedupOrder(all);
      HeadFirst(all, entries, all[0]);
      assert entries[0] == all[IndexOf(all, entries[0])] == all[0];
      Join(entries, ':')
  }

  /** Builds the set from the runtime classpath, then the jar outputs, and joins it. */
  method GenerateClasspathArgument(runtimeClasspath: seq<string>, jarOutputs: seq<string>) returns (arg: string)
    ensures arg == ClasspathArgument(runtimeClasspath, jarOutputs)
  {
    var entries, seen := AddAll([], {}, runtimeClasspath, []);
    assert [] + runtimeClasspath == runtimeClasspath;
    entries, seen := AddAll(entries, seen, jarOutputs, runtimeClasspath);
    arg := Join(entries, ':');
  }

  /** When the paths hold no ':', the argument splits back into the classpath
      entries: every runtime or jar path exactly once, nothing else, in
      first-occurrence order, runtime entries ahead of the jar-only ones. */
  lemma ClasspathEntries(runtimeClasspath: seq<string>, jarOutputs: seq<string>)
    requires runtimeClasspath + jarOutputs != []
    requires forall k :: 0 <= k < |runtimeClasspath| ==> ':' !in runtimeClasspath[k]
    requires forall k :: 0 <= k < |jarOutputs| ==> ':' !in jarOutputs[k]
    ensures var parts := Split(ClasspathArgument(runtimeClasspath, jarOutputs), ':');
      && parts == Dedup(runtimeClasspath + jarOutputs)
      && NoDuplicates(parts)
      && (forall x :: x in parts <==> x in runtimeClasspath || x in jarOutputs)
      && InFirstOccurrenceOrder(runtimeClasspath + jarOutputs, parts)
      && |Dedup(runtimeClasspath)| <= |parts|
      && parts[..|Dedup(runtimeClasspath)|] == Dedup(runtimeClasspath)
      && (forall k :: |Dedup(runtimeClasspath)| <= k < |parts| ==> parts[k] in jarOutputs && parts[k] !in runtimeClasspath)
  {
    var all := runtimeClasspath + jarOutputs;
    var d := Dedup(all);
    assert all[0] in d;
    forall k | 0 <= k < |d|
      ensures ':' !in d[k]
    {
      assert d[k] in all;
    }
    SplitJoin(d, ':');
    DedupOrder(all);
    DedupAppend(runtimeClasspath, jarOutputs);
  }
}
