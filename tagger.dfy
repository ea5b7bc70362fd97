/**
 * The hashtags the bot derives from where a file sits under a reference
 * folder (`TaggerService` in bot/src/services/tagger.service.ts).
 */
module Tagger {
  import opened Wrappers
  import opened Strings

  /** The class `[\s-]`: characters whose runs become one underscore. */
  predicate IsBreak(c: char) { IsSpace(c) || c == '-' }

  /** The class `[a-zA-Z0-9_]`: the only characters a tag keeps. */
  predicate IsTagChar(c: char) { IsAlnum(c) || c == '_' }

  /** A string a sanitised tag can be: lower-case letters, digits and `_`. */
  predicate IsTagText(s: string) {
    forall i :: 0 <= i < |s| ==> IsTagChar(s[i]) && !IsUpper(s[i])
  }

  /** `sanitizeTag`: lower-case, every run of white space or `-` becomes one `_`,
      and every character outside `[a-zA-Z0-9_]` is dropped. */
  function SanitizeTag(tag: string): (r: string)
    ensures IsTagText(r)
    ensures |r| <= |tag|
  {
    var lowered := Lower(tag);
    var collapsed := CollapseRuns(lowered, IsBreak, '_');
    var r := Filter(collapsed, IsTagChar);
    assert IsTagText(r) by {
      CollapseChars(lowered, IsBreak, '_', false);
      LowerSpec(tag);
      FilterSpec(collapsed, IsTagChar);
      forall i | 0 <= i < |r|
        ensures IsTagChar(r[i]) && !IsUpper(r[i])
      {
        assert r[i] in r;
        if r[i] != '_' {
          var j :| 0 <= j < |lowered| && lowered[j] == r[i];
        }
      }
    }
    r
  }

  /** Text that is already a tag is left as it is. */
  lemma SanitizeFixed(w: string)
    requires IsTagText(w)
    ensures SanitizeTag(w) == w
  {
    LowerUnchanged(w);
    CollapseNoRun(w, IsBreak, '_');
    FilterAll(w, IsTagChar);
  }

  /** Sanitising twice is sanitising once. */
  lemma SanitizeIdempotent(tag: string)
    ensures SanitizeTag(SanitizeTag(tag)) == SanitizeTag(tag)
  {
    SanitizeFixed(SanitizeTag(tag));
  }

  /** Lowering never creates or removes a break character. */
  lemma LowerKeepsBreaks(s: string)
    ensures forall i :: 0 <= i < |s| ==> (IsBreak(Lower(s)[i]) <==> IsBreak(s[i]))
  {
    forall i | 0 <= i < |s|
      ensures IsBreak(Lower(s)[i]) <==> IsBreak(s[i])
    {
      if IsUpper(s[i]) {
        assert IsAlnum(Lower(s)[i]) && !IsUpper(Lower(s)[i]);
      }
    }
  }

  /** A run of white space and dashes between two pieces becomes exactly one
      `_` between the pieces' own tags. */
  lemma SanitizeBreak(a: string, brk: string, b: string)
    requires brk != [] && forall i :: 0 <= i < |brk| ==> IsBreak(brk[i])
    requires a == [] || !IsBreak(a[|a| - 1])
    requires b == [] || !IsBreak(b[0])
    ensures SanitizeTag(a + brk + b) == SanitizeTag(a) + "_" + SanitizeTag(b)
  {
    var ca, cb := CollapseRuns(Lower(a), IsBreak, '_'), CollapseRuns(Lower(b), IsBreak, '_');
    LowerBreak(a, brk, b);
    FilterAppend(ca + "_", cb, IsTagChar);
    FilterAppend(ca, "_", IsTagChar);
    FilterAll("_", IsTagChar);
  }

  lemma LowerBreak(a: string, brk: string, b: string)
    requires brk != [] && forall i :: 0 <= i < |brk| ==> IsBreak(brk[i])
    requires a == [] || !IsBreak(a[|a| - 1])
    requires b == [] || !IsBreak(b[0])
    ensures CollapseRuns(Lower(a + brk + b), IsBreak, '_')
         == CollapseRuns(Lower(a), IsBreak, '_') + "_" + CollapseRuns(Lower(b), IsBreak, '_')
  {
    var la, lb := Lower(a), Lower(b);
    LowerAppend(a + brk, b);
    LowerAppend(a, brk);
    LowerUnchanged(brk);
    assert Lower(a + brk + b) == la + (brk + lb);
    LowerKeepsBreaks(a);
    LowerKeepsBreaks(b);
    CollapseBreak(la, brk, lb);
  }

  lemma CollapseBreak(a: string, brk: string, b: string)
    requires brk != [] && forall i :: 0 <= i < |brk| ==> IsBreak(brk[i])
    requires a == [] || !IsBreak(a[|a| - 1])
    requires b == [] || !IsBreak(b[0])
    ensures CollapseRuns(a + (brk + b), IsBreak, '_')
         == CollapseRuns(a, IsBreak, '_') + "_" + CollapseRuns(b, IsBreak, '_')
  {
    CollapseAppend(a, brk + b, IsBreak, '_');
    CollapseAppend(brk, b, IsBreak, '_');
    CollapseRun(brk, IsBreak, '_');
  }

  /** `generatePathTag`: the directory segments of a relative path (every segment
      but the last, which is the file name), sanitised, empty ones dropped,
      joined with `_`. The separator is the POSIX `/`. */
  function GeneratePathTag(relativePath: string): (r: string)
    ensures IsTagText(r)
  {
    var segments := Split(relativePath, '/');
    var tags := SegmentTags(segments[..|segments| - 1]);
    JoinTags(tags);
    Join(tags, '_')
  }

  /** The non-empty sanitised segments, in order (`.map(sanitizeTag).filter(Boolean)`). */
  function SegmentTags(segments: seq<string>): (tags: seq<string>)
    ensures |tags| <= |segments|
    ensures forall i :: 0 <= i < |tags| ==> tags[i] != [] && IsTagText(tags[i])
  {
    if segments == [] then []
    else
      var t := SanitizeTag(segments[0]);
      if t == [] then SegmentTags(segments[1..]) else [t] + SegmentTags(segments[1..])
  }

  /** Appending a segment appends its sanitised form, unless that is empty:
      the tags are the non-empty sanitised segments, in segment order. */
  lemma {:induction false} SegmentTagsAppend(segments: seq<string>, segment: string)
    ensures SegmentTags(segments + [segment])
         == SegmentTags(segments) + (if SanitizeTag(segment) == [] then [] else [SanitizeTag(segment)])
    decreases |segments|
  {
    if segments != [] {
      assert (segments + [segment])[0] == segments[0];
      assert (segments + [segment])[1..] == segments[1..] + [segment];
      SegmentTagsAppend(segments[1..], segment);
    } else {
      assert SegmentTags([segment])
          == (if SanitizeTag(segment) == [] then [] else [SanitizeTag(segment)]) + SegmentTags([]);
    }
  }

  /** The path tag of `dirs/name` is the non-empty sanitised directory names
      joined with `_`, whatever the file name. */
  lemma PathTagOfSegments(dirs: seq<string>, name: string)
    requires forall i :: 0 <= i < |dirs| ==> '/' !in dirs[i]
    requires '/' !in name
    ensures GeneratePathTag(Join(dirs + [name], '/')) == Join(SegmentTags(dirs), '_')
  {
    var all := dirs + [name];
    assert forall i :: 0 <= i < |all| ==> '/' !in all[i];
    SplitJoin(all, '/');
    assert all[..|all| - 1] == dirs;
  }

  /** Joining tags with `_` gives tag text. */
  lemma {:induction false} JoinTags(tags: seq<string>)
    requires forall i :: 0 <= i < |tags| ==> IsTagText(tags[i])
    ensures IsTagText(Join(tags, '_'))
    decreases |tags|
  {
    if |tags| > 1 {
      JoinTags(tags[1..]);
      var rest := Join(tags[1..], '_');
      var j := tags[0] + ['_'] + rest;
      assert forall i :: 0 <= i < |j| ==> j[i] == (if i < |tags[0]| then tags[0][i] else if i == |tags[0]| then '_' else rest[i - |tags[0]| - 1]);
    }
  }

  /** The file name never contributes to the path tag. */
  lemma PathTagIgnoresFileName(dir: string, name1: string, name2: string)
    requires '/' !in name1 && '/' !in name2
    ensures GeneratePathTag(dir + "/" + name1) == GeneratePathTag(dir + "/" + name2)
  {
    SplitThenName(dir, name1);
    SplitThenName(dir, name2);
  }

  /** Splitting `dir/name` gives the segments of `dir` followed by `name`. */
  lemma SplitThenName(dir: string, name: string)
    requires '/' !in name
    ensures Split(dir + "/" + name, '/') == Split(dir, '/') + [name]
  {
    var parts := Split(dir, '/');
    SplitSpec(dir, '/');
    var all := parts + [name];
    assert forall i :: 0 <= i < |all| ==> '/' !in all[i];
    JoinSnoc(parts, name, '/');
    SplitJoin(all, '/');
  }

  lemma {:induction false} JoinSnoc(parts: seq<string>, last: string, sep: char)
    requires |parts| >= 1
    ensures Join(parts + [last], sep) == Join(parts, sep) + [sep] + last
    decreases |parts|
  {
    if |parts| == 1 {
      assert (parts + [last])[1..] == [last];
    } else {
      assert (parts + [last])[1..] == parts[1..] + [last];
      JoinSnoc(parts[1..], last, sep);
    }
  }

  /** JavaScript's `s.slice(start)`: empty once `start` passes the end. */
  function SliceFrom(s: string, start: nat): (r: string)
    ensures start <= |s| ==> r == s[start..]
    ensures start >= |s| ==> r == []
  {
    if start >= |s| then [] else s[start..]
  }

  /** The text after the first occurrence of `base` and the one separator
      character that follows it, or `None` when `base` does not occur. */
  function PathAfterBase(base: string, filePath: string): (r: Option<string>)
    ensures IndexOf(filePath, base).None? <==> r.None?
    ensures r.Some? ==> r.value == SliceFrom(filePath, IndexOf(filePath, base).value + |base| + 1)
  {
    match IndexOf(filePath, base)
    case None => None
    case Some(i) => Some(SliceFrom(filePath, i + |base| + 1))
  }

  /** `classify`: the base's own tag, then the path tag when the base occurs in the
      path and the path tag is non-empty. */
  function Classify(referenceBasePath: string, filePath: string): (tags: seq<string>)
    ensures 1 <= |tags| <= 2
    ensures tags[0] == "#" + SanitizeTag(referenceBasePath)
    ensures IndexOf(filePath, referenceBasePath).None? ==> |tags| == 1
    ensures |tags| == 2 <==>
      PathAfterBase(referenceBasePath, filePath).Some? && GeneratePathTag(PathAfterBase(referenceBasePath, filePath).value) != []
    ensures |tags| == 2 ==> tags[1] == "#" + GeneratePathTag(PathAfterBase(referenceBasePath, filePath).value)
  {
    var first := ["#" + SanitizeTag(referenceBasePath)];
    match PathAfterBase(referenceBasePath, filePath)
    case None => first
    case Some(after) =>
      var pathTag := GeneratePathTag(after);
      if pathTag != [] then first + ["#" + pathTag] else first
  }

  /** Every tag is `#` followed by tag text. */
  lemma ClassifyTagsAreHashtags(referenceBasePath: string, filePath: string)
    ensures forall i :: 0 <= i < |Classify(referenceBasePath, filePath)| ==>
      var t := Classify(referenceBasePath, filePath)[i]; t != [] && t[0] == '#' && IsTagText(t[1..])
  {
    var tags := Classify(referenceBasePath, filePath);
    assert tags[0][1..] == SanitizeTag(referenceBasePath);
    if |tags| == 2 {
      assert tags[1][1..] == GeneratePathTag(PathAfterBase(referenceBasePath, filePath).value);
    }
  }

  /** A file below the first occurrence of the base is tagged with its directories. */
  lemma ClassifyBelowBase(prefix: string, base: string, rel: string)
    requires base != [] && base[0] !in prefix
    requires GeneratePathTag(rel) != []
    ensures Classify(base, prefix + base + "/" + rel) == ["#" + SanitizeTag(base), "#" + GeneratePathTag(rel)]
  {
    var path := prefix + base + "/" + rel;
    assert path == prefix + base + ("/" + rel);
    IndexOfAfterPrefix(prefix, base, "/" + rel);
    assert path[|prefix| + |base| + 1..] == rel;
  }

  /** The test vector of tagger.service.test.ts: base "FullCycle" and a file two
      directories below it. The test's path literal is written here as the
      concatenation of its pieces, which is the same string. */
  lemma ClassifyExample()
    ensures Classify("FullCycle",
      "/Users/" + "anbosa/" + "devspace/" + "__vibe_coding__/" + "telegram_bot/" + "data/"
      + "FullCycle" + "/" + "001 - curso docker" + "/" + "002 - aula de docker 2" + "/" + "002 - Nome da aula 2.ext")
      == ["#fullcycle", "#001_curso_docker_002_aula_de_docker_2"]
  {
    ExamplePrefixFree();
    ExamplePathTag();
    SanitizeFullCycle();
    ExampleHashtags();
    ClassifyBelowBaseIs("/Users/" + "anbosa/" + "devspace/" + "__vibe_coding__/" + "telegram_bot/" + "data/",
      "FullCycle", "001 - curso docker", "002 - aula de docker 2", "002 - Nome da aula 2.ext",
      "#fullcycle", "#001_curso_docker_002_aula_de_docker_2");
  }

  lemma ExampleHashtags()
    ensures "#fullcycle" == "#" + "fullcycle"
    ensures "#001_curso_docker_002_aula_de_docker_2" == "#" + "001_curso_docker_002_aula_de_docker_2"
  {
    assert "#fullcycle"[1..] == "fullcycle";
    HashPrefix("#fullcycle", "fullcycle");
    assert "#001_curso_docker_002_aula_de_docker_2"[1..] == "001_curso_docker_002_aula_de_docker_2";
    HashPrefix("#001_curso_docker_002_aula_de_docker_2", "001_curso_docker_002_aula_de_docker_2");
  }

  lemma HashPrefix(tag: string, text: string)
    requires tag != [] && tag[0] == '#' && tag[1..] == text
    ensures tag == "#" + text
  {
    assert tag == [tag[0]] + tag[1..];
  }

  /** `ClassifyBelowBase` for a relative path of three segments, with the expected
      tags named. */
  lemma ClassifyBelowBaseIs(prefix: string, base: string, d1: string, d2: string, name: string, tag0: string, tag1: string)
    requires base != [] && base[0] !in prefix
    requires tag0 == "#" + SanitizeTag(base)
    requires GeneratePathTag(d1 + "/" + d2 + "/" + name) != [] && tag1 == "#" + GeneratePathTag(d1 + "/" + d2 + "/" + name)
    ensures Classify(base, prefix + base + "/" + d1 + "/" + d2 + "/" + name) == [tag0, tag1]
  {
    Regroup(prefix + base + "/", d1, d2, name);
    ClassifyBelowBase(prefix, base, d1 + "/" + d2 + "/" + name);
  }

  lemma Regroup(head: string, d1: string, d2: string, name: string)
    ensures head + (d1 + "/" + d2 + "/" + name) == head + d1 + "/" + d2 + "/" + name
  {
  }

  /** The directories in front of the base do not contain the base's first letter. */
  lemma ExamplePrefixFree()
    ensures 'F' !in "/Users/" + "anbosa/" + "devspace/" + "__vibe_coding__/" + "telegram_bot/" + "data/"
  {
    assert 'F' !in "/Users/" && 'F' !in "anbosa/" && 'F' !in "devspace/";
    assert 'F' !in "__vibe_coding__/" && 'F' !in "telegram_bot/" && 'F' !in "data/";
  }

  lemma SanitizeFullCycle()
    ensures SanitizeTag("FullCycle") == "fullcycle"
  {
    assert Lower("FullCycle") == "fullcycle";
    SanitizeLowersTo("FullCycle", "fullcycle");
  }

  /** A tag whose lower case is already tag text sanitises to that lower case. */
  lemma SanitizeLowersTo(tag: string, w: string)
    requires Lower(tag) == w && IsTagText(w)
    ensures SanitizeTag(tag) == w
  {
    CollapseNoRun(w, IsBreak, '_');
    FilterAll(w, IsTagChar);
  }

  lemma ExamplePathTag()
    ensures GeneratePathTag("001 - curso docker" + "/" + "002 - aula de docker 2" + "/" + "002 - Nome da aula 2.ext")
         == "001_curso_docker_002_aula_de_docker_2"
  {
    SanitizeCursoDocker();
    SanitizeAulaDeDocker();
    ExampleSegmentsSlashFree();
    ExampleTagJoin();
    PathTagOfTwoDirectories("001 - curso docker", "002 - aula de docker 2", "002 - Nome da aula 2.ext",
      "001_curso_docker", "002_aula_de_docker_2", "001_curso_docker_002_aula_de_docker_2");
  }

  lemma ExampleSegmentsSlashFree()
    ensures '/' !in "001 - curso docker" && '/' !in "002 - aula de docker 2" && '/' !in "002 - Nome da aula 2.ext"
  {
  }

  lemma ExampleTagJoin()
    ensures "001_curso_docker_002_aula_de_docker_2" == "001_curso_docker" + "_" + "002_aula_de_docker_2"
  {
  }

  /** A file two directories deep is tagged with both directories' tags. */
  lemma PathTagOfTwoDirectories(d1: string, d2: string, name: string, t1: string, t2: string, t: string)
    requires '/' !in d1 && '/' !in d2 && '/' !in name
    requires SanitizeTag(d1) == t1 && SanitizeTag(d2) == t2 && t1 != [] && t2 != []
    requires t == t1 + "_" + t2
    ensures GeneratePathTag(d1 + "/" + d2 + "/" + name) == t
  {
    SplitThreeSegments(d1, d2, name);
    var segments := [d1, d2, name];
    assert segments[..|segments| - 1] == [d1, d2];
    assert SegmentTags([d2]) == [t2];
    assert SegmentTags([d1, d2]) == [t1, t2];
  }

  lemma SplitThreeSegments(d1: string, d2: string, name: string)
    requires '/' !in d1 && '/' !in d2 && '/' !in name
    ensures Split(d1 + "/" + d2 + "/" + name, '/') == [d1, d2, name]
  {
    var parts := [d1, d2, name];
    assert Join(parts, '/') == d1 + "/" + d2 + "/" + name;
    SplitJoin(parts, '/');
  }

  lemma SanitizeCursoDocker()
    ensures SanitizeTag("001 - curso docker") == "001_curso_docker"
  {
    assert "001 - curso docker" == "001" + " - " + ("curso" + " " + "docker");
    assert "001_curso_docker" == "001" + "_" + ("curso" + "_" + "docker");
    assert IsBreak(' ') && IsBreak('-');
    SanitizeThreeWords("001", " - ", "curso", " ", "docker");
  }

  lemma SanitizeAulaDeDocker()
    ensures SanitizeTag("002 - aula de docker 2") == "002_aula_de_docker_2"
  {
    assert "002 - aula de docker 2" == "002" + " - " + ("aula" + " " + ("de" + " " + ("docker" + " " + "2")));
    assert "002_aula_de_docker_2" == "002" + "_" + ("aula" + "_" + ("de" + "_" + ("docker" + "_" + "2")));
    assert IsBreak(' ') && IsBreak('-');
    SanitizeFiveWords("002", " - ", "aula", "de", "docker", "2");
  }

  /** Tag words separated by breaks become the words joined by `_`. */
  lemma SanitizeThreeWords(a: string, b1: string, c: string, b2: string, e: string)
    requires a != [] && c != [] && e != [] && IsTagText(a) && IsTagText(c) && IsTagText(e)
    requires b1 != [] && forall i :: 0 <= i < |b1| ==> IsBreak(b1[i])
    requires b2 != [] && forall i :: 0 <= i < |b2| ==> IsBreak(b2[i])
    ensures SanitizeTag(a + b1 + (c + b2 + e)) == a + "_" + (c + "_" + e)
  {
    SanitizeWords(c, b2, e);
    SanitizeThen(a, b1, c + b2 + e);
  }

  lemma SanitizeFiveWords(a: string, b1: string, c: string, d: string, e: string, f: string)
    requires a != [] && c != [] && d != [] && e != [] && f != []
    requires IsTagText(a) && IsTagText(c) && IsTagText(d) && IsTagText(e) && IsTagText(f)
    requires b1 != [] && forall i :: 0 <= i < |b1| ==> IsBreak(b1[i])
    ensures SanitizeTag(a + b1 + (c + " " + (d + " " + (e + " " + f))))
         == a + "_" + (c + "_" + (d + "_" + (e + "_" + f)))
  {
    SanitizeFourWords(c, d, e, f);
    SanitizeThen(a, b1, c + " " + (d + " " + (e + " " + f)));
  }

  lemma SanitizeFourWords(c: string, d: string, e: string, f: string)
    requires c != [] && d != [] && e != [] && f != []
    requires IsTagText(c) && IsTagText(d) && IsTagText(e) && IsTagText(f)
    ensures SanitizeTag(c + " " + (d + " " + (e + " " + f))) == c + "_" + (d + "_" + (e + "_" + f))
  {
    assert IsBreak(' ');
    SanitizeWords(e, " ", f);
    SanitizeThen(d, " ", e + " " + f);
    SanitizeThen(c, " ", d + " " + (e + " " + f));
  }

  /** A tag word followed by a break keeps the word and one `_`. */
  lemma SanitizeThen(w: string, brk: string, rest: string)
    requires w != [] && IsTagText(w)
    requires brk != [] && forall i :: 0 <= i < |brk| ==> IsBreak(brk[i])
    requires rest != [] && IsTagChar(rest[0])
    ensures SanitizeTag(w + brk + rest) == w + "_" + SanitizeTag(rest)
  {
    TagCharNotBreak(rest[0]);
    TagCharNotBreak(w[|w| - 1]);
    SanitizeBreak(w, brk, rest);
    SanitizeFixed(w);
  }

  /** Two tag words separated by a break. */
  lemma SanitizeWords(a: string, brk: string, b: string)
    requires a != [] && b != [] && IsTagText(a) && IsTagText(b)
    requires brk != [] && forall i :: 0 <= i < |brk| ==> IsBreak(brk[i])
    ensures SanitizeTag(a + brk + b) == a + "_" + b
  {
    TagCharNotBreak(a[|a| - 1]);
    TagCharNotBreak(b[0]);
    SanitizeBreak(a, brk, b);
    SanitizeFixed(a);
    SanitizeFixed(b);
  }

  lemma TagCharNotBreak(c: char)
    requires IsTagChar(c)
    ensures !IsBreak(c)
  {
  }
}
