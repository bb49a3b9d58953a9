/** File-system paths as the task builds them with `Paths.get`, `Path.resolve`
    and `File.getAbsolutePath`, following the Unix path rules of the Java
    platform: '/' separates names, repeated and trailing separators vanish,
    and a path is absolute when its text starts with '/'. */
module Paths {
  import opened Strings

  /** One name of a path: non-empty and free of the separator. */
  predicate IsName(s: string) {
    s != "" && '/' !in s
  }

  /** A path: whether it starts at the root, and its names from the outside in. */
  datatype Path = Path(absolute: bool, names: seq<string>)

  predicate Normal(p: Path) {
    forall k :: 0 <= k < |p.names| ==> IsName(p.names[k])
  }

  type NormalPath = p: Path | Normal(p) witness Path(false, [])

  /** The cache root and the project directory are absolute paths. */
  type AbsolutePath = p: Path | Normal(p) && p.absolute witness Path(true, [])

  /** The elements of `parts` that are not empty, in their order. */
  function NonEmpty(parts: seq<string>): (r: seq<string>)
    ensures forall k :: 0 <= k < |r| ==> r[k] != "" && r[k] in parts
    ensures (forall k :: 0 <= k < |parts| ==> parts[k] != "") ==> r == parts
  {
    if parts == [] then []
    else if parts[0] == "" then NonEmpty(parts[1..])
    else [parts[0]] + NonEmpty(parts[1..])
  }

  /** The path a string denotes: empty names (from repeated, leading or
      trailing separators) are dropped. */
  function Parse(s: string): (p: NormalPath)
    ensures p.absolute <==> |s| > 0 && s[0] == '/'
    ensures forall k :: 0 <= k < |p.names| ==> p.names[k] in Split(s, '/')
  {
    Path(|s| > 0 && s[0] == '/', NonEmpty(Split(s, '/')))
  }

  /** `Paths.get(first, more...)`: the non-empty strings joined with '/', then
      parsed; the path is absolute exactly when a non-empty `first` starts with '/'. */
  function Get(first: string, more: seq<string>): (r: NormalPath)
    ensures first != "" ==> (r.absolute <==> first[0] == '/')
  {
    var all := [first] + more;
    assert all[0] == first && all[1..] == more;
    Parse(Join(NonEmpty(all), '/'))
  }

  /** `base.resolve(other)`: an absolute `other` replaces `base`; a relative
      one is appended to it. */
  function Resolve(base: NormalPath, other: NormalPath): (r: NormalPath)
    ensures other.absolute ==> r == other
    ensures !other.absolute ==> r.absolute == base.absolute && r.names == base.names + other.names
  {
    if other.absolute then other else Path(base.absolute, base.names + other.names)
  }

  /** The text of a path, as `toString` and, for an absolute path, `getAbsolutePath` give it. */
  function Render(p: Path): string
  {
    (if p.absolute then "/" else "") + Join(p.names, '/')
  }

  /** Splitting a string that starts with the separator gives an empty piece first. */
  lemma SplitRooted(j: string)
    ensures Split("/" + j, '/') == [""] + Split(j, '/')
  {
    IndexOfAfter([], '/', j);
    assert "/" + j == [] + ['/'] + j;
    assert ("/" + j)[1..] == j;
  }

  /** The non-empty pieces of joined names are those names. */
  lemma NamesOfJoin(names: seq<string>)
    requires forall k :: 0 <= k < |names| ==> IsName(names[k])
    ensures NonEmpty(Split(Join(names, '/'), '/')) == names
  {
    if names != [] {
      SplitJoin(names, '/');
    }
  }

  /** Joined names never start with the separator. */
  lemma JoinNotRooted(names: seq<string>)
    requires forall k :: 0 <= k < |names| ==> IsName(names[k])
    requires names != []
    ensures |Join(names, '/')| > 0 && Join(names, '/')[0] != '/'
  {
    assert names[0][0] != '/';
    if |names| > 1 {
      assert Join(names, '/') == names[0] + ['/'] + Join(names[1..], '/');
    }
  }

  /** Parsing the text of a path gives the path back: `Render` loses nothing. */
  lemma ParseRender(p: NormalPath)
    ensures Parse(Render(p)) == p
  {
    var j := Join(p.names, '/');
    NamesOfJoin(p.names);
    if p.absolute {
      SplitRooted(j);
      assert Render(p) == "/" + j;
      assert ([""] + Split(j, '/'))[1..] == Split(j, '/');
    } else {
      assert Render(p) == j;
      if p.names != [] {
        JoinNotRooted(p.names);
      }
    }
  }

  /** `Paths.get` of names that are already plain names gives the relative path of those names. */
  lemma GetNames(names: seq<string>)
    requires |names| >= 1
    requires forall k :: 0 <= k < |names| ==> IsName(names[k])
    ensures Get(names[0], names[1..]) == Path(false, names)
  {
    assert [names[0]] + names[1..] == names;
    assert Render(Path(false, names)) == Join(names, '/');
    ParseRender(Path(false, names));
  }

  /** The text that precedes the '/' before a name placed under the absolute
      path `dir`: the text of `dir`, or nothing for the root, whose text is "/". */
  function ParentText(dir: AbsolutePath): (t: string)
    ensures dir.names != [] ==> t == Render(dir)
    ensures dir.names == [] ==> t == ""
  {
    if dir.names == [] then "" else Render(dir)
  }

  /** The text of an absolute path followed by more names is the base's
      parent text, a '/', and the new names joined with '/'. */
  lemma RenderAppend(base: AbsolutePath, more: seq<string>)
    requires more != []
    ensures Render(Path(true, base.names + more)) == ParentText(base) + "/" + Join(more, '/')
  {
    var names, joined := base.names, Join(more, '/');
    assert Render(Path(true, names + more)) == "/" + Join(names + more, '/');
    if names != [] {
      RootedJoinAppend(names, more);
      assert ParentText(base) == "/" + Join(names, '/');
    } else {
      assert names + more == more;
    }
  }

  /** The rooted text of `a + b` is the rooted text of `a`, a '/', and the text of `b`. */
  lemma RootedJoinAppend(a: seq<string>, b: seq<string>)
    requires a != [] && b != []
    ensures "/" + Join(a + b, '/') == "/" + Join(a, '/') + "/" + Join(b, '/')
  {
    JoinAppend(a, b, '/');
  }

  /** The text of a path starts with '/' exactly when the path is absolute. */
  lemma RenderAbsolute(p: NormalPath)
    ensures p.absolute <==> |Render(p)| > 0 && Render(p)[0] == '/'
  {
    if !p.absolute && p.names != [] {
      JoinNotRooted(p.names);
    }
  }
}
