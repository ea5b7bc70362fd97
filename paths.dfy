/**
 * The parts of Node's POSIX `path` module the bot uses: `basename`, `extname`,
 * the `name` field of `parse`, and `join` of a directory and an entry name.
 */
module Paths {
  import opened Wrappers
  import opened Strings

  predicate IsSlash(c: char) { c == '/' }

  /** `lastIndexOf` of one character; `None` for -1. */
  function LastIndexOf(s: string, c: char): (k: Option<nat>)
    ensures k.None? ==> c !in s
    ensures k.Some? ==> k.value < |s| && s[k.value] == c && c !in s[k.value + 1..]
  {
    if s == [] then None
    else if s[|s| - 1] == c then Some(|s| - 1)
    else
      var k := LastIndexOf(s[..|s| - 1], c);
      assert s == s[..|s| - 1] + [s[|s| - 1]];
      assert k.Some? ==> s[k.value + 1..] == s[..|s| - 1][k.value + 1..] + [s[|s| - 1]];
      k
  }

  /** `path.basename`: the last segment, trailing slashes ignored. */
  function Basename(path: string): (b: string)
    ensures '/' !in b
  {
    var t := DropWhileEnd(path, IsSlash);
    match LastIndexOf(t, '/')
    case None => t
    case Some(k) => t[k + 1..]
  }

  /** `path.extname`: from the last `.` of the base name to its end, or '' when
      the base name has no `.`, starts with its only `.`, or is `..`. */
  function Extname(path: string): (ext: string)
    ensures ext == [] || (ext[0] == '.' && '.' !in ext[1..])
    ensures |ext| <= |Basename(path)| && ext == Basename(path)[|Basename(path)| - |ext|..]
  {
    var b := Basename(path);
    match LastIndexOf(b, '.')
    case None => []
    case Some(k) => if k == 0 || b == ".." then [] else b[k..]
  }

  /** `path.parse(path).name`: the base name without its extension. */
  function ParsedName(path: string): (name: string)
    ensures name + Extname(path) == Basename(path)
  {
    var b, ext := Basename(path), Extname(path);
    SuffixSplit(b, ext);
    b[..|b| - |ext|]
  }

  /** Cutting a suffix off and putting it back gives the string again. */
  lemma SuffixSplit(s: string, suffix: string)
    requires |suffix| <= |s| && suffix == s[|s| - |suffix|..]
    ensures s[..|s| - |suffix|] + suffix == s
  {
  }

  /** `path.join(dir, name)` for an entry name without slashes. */
  function Join(dir: string, name: string): string {
    if dir == [] then name
    else if dir[|dir| - 1] == '/' then dir + name
    else dir + "/" + name
  }

  /** The base name of a name without slashes is the name itself. */
  lemma BasenameOfName(name: string)
    requires name != [] && '/' !in name
    ensures Basename(name) == name
  {
    assert name[|name| - 1] != '/';
  }

  /** The base name of a joined path is the entry name. */
  lemma BasenameOfJoin(dir: string, name: string)
    requires name != [] && '/' !in name
    ensures Basename(Join(dir, name)) == name
  {
    var p := Join(dir, name);
    assert p[|p| - 1] == name[|name| - 1] by {
      assert p == if dir == [] then name else if dir[|dir| - 1] == '/' then dir + name else (dir + "/") + name;
    }
    assert p[|p| - 1] != '/';
    if dir == [] {
      BasenameOfName(name);
    } else {
      var pre := if dir[|dir| - 1] == '/' then dir else dir + "/";
      assert p == pre + name;
      assert pre[|pre| - 1] == '/';
      var k := |pre| - 1;
      assert p[k] == '/';
      assert p[k + 1..] == name;
      LastAt(pre, name, '/');
    }
  }

  /** The last occurrence of `c` is the one that ends `pre` when `rest` has none. */
  lemma LastAt(pre: string, rest: string, c: char)
    requires pre != [] && pre[|pre| - 1] == c && c !in rest
    ensures LastIndexOf(pre + rest, c) == Some(|pre| - 1)
  {
    var s := pre + rest;
    assert s[|pre| - 1] == c;
    assert s[|pre|..] == rest;
  }

  /** A name whose stem does not start with `.` has the part after its last dot
      as extension. */
  lemma ExtnameOf(stem: string, ext: string)
    requires stem != [] && stem[0] != '.' && '/' !in stem
    requires '/' !in ext && '.' !in ext
    ensures Extname(stem + "." + ext) == "." + ext
  {
    var pre := stem + ".";
    var b := pre + ext;
    assert '/' !in pre;
    assert '/' !in b;
    BasenameOfName(b);
    LastAt(pre, ext, '.');
    assert b[0] == stem[0];
    assert b[|stem|..] == "." + ext;
  }

  /** Every character of the base name occurs in the path. */
  lemma BasenameChars(path: string)
    ensures forall c :: c in Basename(path) ==> c in path
  {
    var t := DropWhileEnd(path, IsSlash);
    assert forall c :: c in t ==> c in path by { assert t == path[..|t|]; }
    match LastIndexOf(t, '/')
    case None =>
    case Some(k) =>
      assert forall c :: c in t[k + 1..] ==> c in t;
  }

  /** A name without dots has no extension. */
  lemma NoExtname(name: string)
    requires '.' !in name
    ensures Extname(name) == []
  {
    BasenameChars(name);
  }
}
