/**
 * `parseToTelegramHashtag` (bot/src/utils.ts): turns a lesson or course title
 * into the body of a Telegram hashtag, moving a leading number to the end.
 *
 * The source applies its steps in this order: move the number (line 11), strip
 * an extension (line 14), turn punctuation into `_` (line 17), turn spaces into
 * `_`, collapse and trim underscores (line 20), lower-case (line 23). Because
 * the number is moved first, the text always ends in a space or in a space and
 * digits when the extension step runs, so that step never changes anything
 * (`ExtensionNeverStripped`). `ParseToTelegramHashtagAsWritten` keeps that
 * order; `ParseToTelegramHashtag` strips the extension first, as the comment at
 * line 13 intends.
 */
module Hashtag {
  import opened Strings

  /** The class `[\s\-\.]` of separators that may follow the leading number. */
  predicate IsNumberSeparator(c: char) { IsSpace(c) || c == '-' || c == '.' }

  /** The class `[^a-zA-Z0-9 ]`. */
  predicate IsPunctuation(c: char) { !IsAlnum(c) && c != ' ' }

  predicate IsBlank(c: char) { c == ' ' }

  predicate IsUnderscore(c: char) { c == '_' }

  predicate AllAlnum(s: string) { forall i :: 0 <= i < |s| ==> IsAlnum(s[i]) }

  /** The shape of every result: lower-case letters, digits and `_`, no `_` at
      either end and never two `_` in a row. */
  predicate IsHashtagText(r: string) {
    && (forall i :: 0 <= i < |r| ==> (IsAlnum(r[i]) || r[i] == '_') && !IsUpper(r[i]))
    && (r == [] || (r[0] != '_' && r[|r| - 1] != '_'))
    && (forall i :: 0 <= i < |r| - 1 ==> !(r[i] == '_' && r[i + 1] == '_'))
  }

  /** The capture of `/^(\d+)/`, or '' when the string does not start with a digit. */
  function LeadingDigits(s: string): (d: string)
    ensures |d| <= |s| && d == s[..|d|] && AllDigits(d)
    ensures |d| == |s| || !IsDigit(s[|d|])
  {
    DropWhileSkipped(s, IsDigit);
    s[..|s| - |DropWhile(s, IsDigit)|]
  }

  /** Line 11: the text after the leading number and its separators, trimmed,
      then a space, then the number. */
  function MoveNumber(str: string): (r: string)
    ensures |r| > |LeadingDigits(str)|
  {
    Trim(AfterNumber(str)) + " " + LeadingDigits(str)
  }

  /** The moved title ends in a space and the leading number; without a
      leading number it is the whole title, trimmed, and a space. */
  lemma MoveNumberShape(str: string)
    ensures var r, d := MoveNumber(str), LeadingDigits(str);
      |r| > |d| && r[|r| - |d| - 1..] == " " + d
    ensures LeadingDigits(str) == [] ==> MoveNumber(str) == Trim(str) + " "
  {
    var d, t := LeadingDigits(str), Trim(AfterNumber(str));
    EndsWithSpaced(t, d);
    if d == [] {
      assert t + " " + d == t + " ";
    }
  }

  /** A text, a space and a word end in the space and the word. */
  lemma EndsWithSpaced(t: string, w: string)
    ensures var r := t + " " + w;
      |r| > |w| && r[|r| - |w| - 1..] == " " + w
  {
    var r := t + " " + w;
    assert r == t + (" " + w);
    assert r[|t|..] == " " + w;
  }

  /** The text after the leading number and the separators that follow it. */
  function AfterNumber(str: string): string
  {
    var d := LeadingDigits(str);
    if d == [] then str else DropWhile(str[|d|..], IsNumberSeparator)
  }

  /** Without a leading number, the whole title is trimmed and one space is appended. */
  lemma NoLeadingDigits(str: string)
    requires str == [] || !IsDigit(str[0])
    ensures MoveNumber(str) == Trim(str) + " "
  {
    assert LeadingDigits(str) == [];
    MoveNumberShape(str);
  }

  /** A leading number and the separators after it go to the end, behind a space. */
  lemma LeadingNumberMoved(d: string, sep: string, rest: string)
    requires d != [] && AllDigits(d)
    requires forall i :: 0 <= i < |sep| ==> IsNumberSeparator(sep[i])
    requires rest == [] || (!IsNumberSeparator(rest[0]) && (sep != [] || !IsDigit(rest[0])))
    ensures MoveNumber(d + sep + rest) == Trim(rest) + " " + d
  {
    var str := d + (sep + rest);
    assert str == d + sep + rest;
    if sep != [] {
      assert !IsDigit(sep[0]) by { assert IsNumberSeparator(sep[0]); }
      assert (sep + rest)[0] == sep[0];
    } else {
      assert sep + rest == rest;
    }
    DigitsPrefix(d, sep + rest);
    assert str[|d|..] == sep + rest;
    DropSeparators(sep, rest);
  }

  lemma {:induction false} DigitsPrefix(d: string, t: string)
    requires AllDigits(d)
    requires t == [] || !IsDigit(t[0])
    ensures LeadingDigits(d + t) == d
    decreases |d|
  {
    if d == [] {
      assert d + t == t;
    } else {
      DigitsPrefix(d[1..], t);
      assert (d + t)[1..] == d[1..] + t;
      assert DropWhile(d + t, IsDigit) == DropWhile(d[1..] + t, IsDigit);
    }
  }

  lemma {:induction false} DropSeparators(sep: string, rest: string)
    requires forall i :: 0 <= i < |sep| ==> IsNumberSeparator(sep[i])
    requires rest == [] || !IsNumberSeparator(rest[0])
    ensures DropWhile(sep + rest, IsNumberSeparator) == rest
    decreases |sep|
  {
    if sep == [] {
      assert sep + rest == rest;
    } else {
      assert (sep + rest)[1..] == sep[1..] + rest;
      DropSeparators(sep[1..], rest);
    }
  }

  /** Line 14, `s.replace(/\.[a-zA-Z0-9]+$/, '')`: when the string ends in a dot
      followed by letters and digits, that suffix is removed. */
  function StripExtension(s: string): (r: string)
    ensures r == s || (|r| + 1 < |s| && r == s[..|r|] && s[|r|] == '.' && AllAlnum(s[|r| + 1..]))
  {
    var stem := DropWhileEnd(s, IsAlnum);
    DropWhileEndSkipped(s, IsAlnum);
    if |stem| < |s| && stem != [] && stem[|stem| - 1] == '.' then stem[..|stem| - 1] else s
  }

  /** A dot and a non-empty run of letters and digits at the end is removed. */
  lemma StripExtensionOf(x: string, ext: string)
    requires ext != [] && AllAlnum(ext)
    ensures StripExtension(x + "." + ext) == x
  {
    DropWhileEndRun(x + ".", ext, IsAlnum);
    assert (x + ".")[..|x|] == x;
  }

  /** A string ending in a character other than a letter or digit keeps its end. */
  lemma StripExtensionNone(s: string)
    requires s != [] && !IsAlnum(s[|s| - 1])
    ensures StripExtension(s) == s
  {
  }

  /** The discrepancy: after line 11 the string ends in a space or in a space and
      digits, so the extension pattern of line 14 can never match. */
  lemma ExtensionNeverStripped(str: string)
    ensures StripExtension(MoveNumber(str)) == MoveNumber(str)
  {
    var head := Trim(AfterNumber(str)) + " ";
    var d := LeadingDigits(str);
    assert forall i :: 0 <= i < |d| ==> IsAlnum(d[i]);
    NothingToStrip(head, d);
  }

  /** Text ending in a space and then letters and digits has no extension to strip. */
  lemma NothingToStrip(head: string, w: string)
    requires head != [] && head[|head| - 1] == ' '
    requires AllAlnum(w)
    ensures StripExtension(head + w) == head + w
  {
    DropWhileEndRun(head, w, IsAlnum);
  }

  /** Lines 17 and 20 up to the trimming: punctuation runs, then space runs, then
      underscore runs each become one `_`. */
  function Underscored(s: string): (r: string)
    ensures forall i :: 0 <= i < |r| ==> IsAlnum(r[i]) || r[i] == '_'
    ensures forall i :: 0 <= i < |r| - 1 ==> !(r[i] == '_' && r[i + 1] == '_')
  {
    var punct := CollapseRuns(s, IsPunctuation, '_');
    var spaced := CollapseRuns(punct, IsBlank, '_');
    CollapseChars(s, IsPunctuation, '_', false);
    CollapseChars(punct, IsBlank, '_', false);
    CollapseChars(spaced, IsUnderscore, '_', false);
    CollapseNoDoubles(spaced, IsUnderscore, '_', false);
    var r := CollapseRuns(spaced, IsUnderscore, '_');
    assert forall i :: 0 <= i < |r| ==> r[i] in r;
    r
  }

  /** How many underscores `TrimUnderscores` removes from the front of `s`. */
  function LeadingUnderscores(s: string): nat {
    |s| - |DropWhile(s, IsUnderscore)|
  }

  /** Line 20's `/^_+|_+$/g`: leading and trailing underscores removed. */
  function TrimUnderscores(s: string): (r: string)
    ensures r == [] || (r[0] != '_' && r[|r| - 1] != '_')
    ensures LeadingUnderscores(s) + |r| <= |s| && r == s[LeadingUnderscores(s)..LeadingUnderscores(s) + |r|]
  {
    var front := DropWhile(s, IsUnderscore);
    var r := DropWhileEnd(front, IsUnderscore);
    assert r == front[..|r|];
    r
  }

  /** Lines 17 to 23. */
  function Tidy(s: string): (r: string)
    ensures IsHashtagText(r)
  {
    var u := Underscored(s);
    TrimmedShape(u);
    var t := TrimUnderscores(u);
    LoweredShape(t);
    Lower(t)
  }

  /** Text of letters, digits and single `_` keeps that shape when trimmed. */
  lemma TrimmedShape(u: string)
    requires forall i :: 0 <= i < |u| ==> IsAlnum(u[i]) || u[i] == '_'
    requires forall i :: 0 <= i < |u| - 1 ==> !(u[i] == '_' && u[i + 1] == '_')
    ensures forall i :: 0 <= i < |TrimUnderscores(u)| ==> IsAlnum(TrimUnderscores(u)[i]) || TrimUnderscores(u)[i] == '_'
    ensures forall i :: 0 <= i < |TrimUnderscores(u)| - 1 ==>
      !(TrimUnderscores(u)[i] == '_' && TrimUnderscores(u)[i + 1] == '_')
  {
    var t := TrimUnderscores(u);
    var k := LeadingUnderscores(u);
    assert forall i :: 0 <= i < |t| ==> t[i] == u[k + i];
  }

  /** Lower-casing text of letters, digits and single inner `_` gives hashtag text. */
  lemma LoweredShape(t: string)
    requires forall i :: 0 <= i < |t| ==> IsAlnum(t[i]) || t[i] == '_'
    requires forall i :: 0 <= i < |t| - 1 ==> !(t[i] == '_' && t[i + 1] == '_')
    requires t == [] || (t[0] != '_' && t[|t| - 1] != '_')
    ensures IsHashtagText(Lower(t))
  {
    var r := Lower(t);
    forall i | 0 <= i < |r|
      ensures (IsAlnum(r[i]) || r[i] == '_') && !IsUpper(r[i])
      ensures r[i] == '_' <==> t[i] == '_'
    {
      assert r[i] == LowerChar(t[i]);
    }
  }

  /** `parseToTelegramHashtag` as written: the extension step comes after the
      number has been moved. */
  function ParseToTelegramHashtagAsWritten(str: string): (r: string)
    ensures IsHashtagText(r)
  {
    Tidy(StripExtension(MoveNumber(str)))
  }

  /** `parseToTelegramHashtag` with the extension stripped before the number is
      moved, which is what the comment at line 13 describes. */
  function ParseToTelegramHashtag(str: string): (r: string)
    ensures IsHashtagText(r)
  {
    Tidy(MoveNumber(StripExtension(str)))
  }

  /** As written, the extension step is dead: the result is that of the pipeline
      without it. */
  lemma AsWrittenIgnoresExtension(str: string)
    ensures ParseToTelegramHashtagAsWritten(str) == Tidy(MoveNumber(str))
  {
    ExtensionNeverStripped(str);
  }

  /** Corrected, a name with an extension gets the hashtag of the name without it. */
  lemma CorrectedDropsExtension(x: string, ext: string)
    requires ext != [] && AllAlnum(ext)
    ensures ParseToTelegramHashtag(x + "." + ext) == Tidy(MoveNumber(x))
  {
    StripExtensionOf(x, ext);
  }

  // ---- the underscore stages over concatenations ----

  lemma AlnumNotSpecial(c: char)
    requires IsAlnum(c)
    ensures !IsPunctuation(c) && !IsBlank(c) && !IsUnderscore(c) && !IsSpace(c) && !IsNumberSeparator(c)
  {
  }

  /** The three collapsing stages distribute over a seam next to a letter or digit. */
  lemma UnderscoredAppend(a: string, b: string)
    requires (a != [] && IsAlnum(a[|a| - 1])) || (b != [] && IsAlnum(b[0]))
    ensures Underscored(a + b) == Underscored(a) + Underscored(b)
  {
    if a != [] && IsAlnum(a[|a| - 1]) { AlnumNotSpecial(a[|a| - 1]); }
    if b != [] && IsAlnum(b[0]) { AlnumNotSpecial(b[0]); }
    CollapseAppend(a, b, IsPunctuation, '_');
    var pa, pb := CollapseRuns(a, IsPunctuation, '_'), CollapseRuns(b, IsPunctuation, '_');
    CollapseAppend(pa, pb, IsBlank, '_');
    var sa, sb := CollapseRuns(pa, IsBlank, '_'), CollapseRuns(pb, IsBlank, '_');
    CollapseAppend(sa, sb, IsUnderscore, '_');
  }

  /** Letters and digits pass the three stages unchanged. */
  lemma UnderscoredWord(w: string)
    requires AllAlnum(w)
    ensures Underscored(w) == w
  {
    forall i | 0 <= i < |w| ensures !IsPunctuation(w[i]) && !IsBlank(w[i]) && !IsUnderscore(w[i]) {
      AlnumNotSpecial(w[i]);
    }
    CollapseNoRun(w, IsPunctuation, '_');
    CollapseNoRun(w, IsBlank, '_');
    CollapseNoRun(w, IsUnderscore, '_');
  }

  /** A non-empty run of characters other than letters and digits becomes one `_`. */
  lemma UnderscoredSeparator(sep: string)
    requires sep != [] && forall i :: 0 <= i < |sep| ==> !IsAlnum(sep[i])
    ensures Underscored(sep) == "_"
  {
    var punct := CollapseRuns(sep, IsPunctuation, '_');
    CollapseChars(sep, IsPunctuation, '_', false);
    assert forall i :: 0 <= i < |punct| ==> punct[i] == '_' || punct[i] == ' ' by {
      assert forall i :: 0 <= i < |punct| ==> punct[i] in punct;
      assert forall c :: c in sep ==> !IsAlnum(c);
    }
    var spaced := CollapseRuns(punct, IsBlank, '_');
    CollapseChars(punct, IsBlank, '_', false);
    assert forall i :: 0 <= i < |spaced| ==> spaced[i] == '_' by {
      assert forall i :: 0 <= i < |spaced| ==> spaced[i] in spaced;
    }
    CollapseRun(spaced, IsUnderscore, '_');
  }

  /** A word, a separator run and more text starting with a letter or digit. */
  lemma UnderscoredStep(w: string, sep: string, rest: string)
    requires w != [] && AllAlnum(w)
    requires sep != [] && forall i :: 0 <= i < |sep| ==> !IsAlnum(sep[i])
    requires rest == [] || IsAlnum(rest[0])
    ensures Underscored(w + sep + rest) == w + "_" + Underscored(rest)
  {
    if rest == [] {
      assert w + sep + rest == w + sep;
      assert w + "_" + rest == w + "_";
    } else {
      UnderscoredAppend(w + sep, rest);
    }
    UnderscoredAppend(w, sep);
    UnderscoredWord(w);
    UnderscoredSeparator(sep);
  }

  /** Trimming underscores keeps text that starts and ends with something else,
      and removes one trailing `_` after it. */
  lemma TrimUnderscoresKeeps(x: string)
    requires x != [] && x[0] != '_' && x[|x| - 1] != '_'
    ensures TrimUnderscores(x) == x
    ensures TrimUnderscores(x + "_") == x
  {
    assert (x + "_")[0] == x[0];
    DropWhileEndRun(x, "_", IsUnderscore);
  }

  /** Lowering a word, an underscore and a word. */
  lemma LowerJoined(a: string, b: string)
    ensures Lower(a + "_" + b) == Lower(a) + "_" + Lower(b)
  {
    LowerAppend(a + "_", b);
    LowerAppend(a, "_");
  }

  /** The last stages, when the underscored text is `x` followed by one `_`. */
  lemma TidyTrailing(s: string, x: string)
    requires x != [] && x[0] != '_' && x[|x| - 1] != '_'
    requires Underscored(s) == x + "_"
    ensures Tidy(s) == Lower(x)
  {
    TrimUnderscoresKeeps(x);
  }

  /** The last stages, when the underscored text is `x` itself. */
  lemma TidyExact(s: string, x: string)
    requires x != [] && x[0] != '_' && x[|x| - 1] != '_'
    requires Underscored(s) == x
    ensures Tidy(s) == Lower(x)
  {
    TrimUnderscoresKeeps(x);
  }

  /** A title that neither starts with a digit nor has space at its ends only
      gets a space appended by line 11. */
  lemma PlainTitleMoved(str: string)
    requires str != [] && IsAlnum(str[0]) && !IsDigit(str[0]) && IsAlnum(str[|str| - 1])
    ensures MoveNumber(str) == str + " "
  {
    AlnumNotSpecial(str[0]);
    AlnumNotSpecial(str[|str| - 1]);
    NoLeadingDigits(str);
    TrimUnchanged(str);
  }

  /** A word followed by a space: one word and a trailing `_`. */
  lemma UnderscoredWordSpace(w: string)
    requires w != [] && AllAlnum(w)
    ensures Underscored(w + " ") == w + "_"
  {
    assert !IsAlnum(' ');
    UnderscoredStep(w, " ", []);
    assert w + " " + [] == w + " " && w + "_" + [] == w + "_";
  }

  /** `w.ext ` becomes `w_ext_`. */
  lemma UnderscoredDotted(w: string, ext: string)
    requires w != [] && AllAlnum(w) && ext != [] && AllAlnum(ext)
    ensures Underscored(w + "." + ext + " ") == (w + "_" + ext) + "_"
  {
    assert !IsAlnum('.');
    assert w + "." + ext + " " == w + "." + (ext + " ");
    UnderscoredStep(w, ".", ext + " ");
    UnderscoredWordSpace(ext);
  }

  /** `a b d` becomes `a_b_d`. */
  lemma UnderscoredThree(a: string, b: string, d: string)
    requires a != [] && AllAlnum(a) && b != [] && AllAlnum(b) && d != [] && AllAlnum(d)
    ensures Underscored(a + " " + b + " " + d) == a + "_" + b + "_" + d
  {
    var bd := b + " " + d;
    assert bd[0] == b[0];
    UnderscoredStep(a, " ", bd);
    UnderscoredTwo(b, d);
    Regroup(a, " ", b, " ", d);
    Regroup(a, "_", b, "_", d);
  }

  lemma Regroup(a: string, s1: string, b: string, s2: string, d: string)
    ensures a + s1 + b + s2 + d == a + s1 + (b + s2 + d)
  {
  }

  /** `b d` becomes `b_d`. */
  lemma UnderscoredTwo(b: string, d: string)
    requires b != [] && AllAlnum(b) && d != [] && AllAlnum(d)
    ensures Underscored(b + " " + d) == b + "_" + d
  {
    assert !IsAlnum(' ');
    UnderscoredStep(b, " ", d);
    UnderscoredWord(d);
  }

  lemma AlnumEnds(w: string)
    requires w != [] && AllAlnum(w)
    ensures w[0] != '_' && w[|w| - 1] != '_'
  {
    AlnumNotSpecial(w[0]);
    AlnumNotSpecial(w[|w| - 1]);
  }

  // ---- what the two versions make of particular titles ----

  /** As written, a title with an extension keeps the extension as a last word:
      "aula.mp4" gives "aula_mp4". */
  lemma AsWrittenKeepsExtension(w: string, ext: string)
    requires w != [] && AllAlnum(w) && !IsDigit(w[0])
    requires ext != [] && AllAlnum(ext)
    ensures ParseToTelegramHashtagAsWritten(w + "." + ext) == Lower(w) + "_" + Lower(ext)
  {
    var str := w + "." + ext;
    assert str[0] == w[0] && str[|str| - 1] == ext[|ext| - 1];
    AsWrittenIgnoresExtension(str);
    PlainTitleMoved(str);
    UnderscoredDotted(w, ext);
    var x := w + "_" + ext;
    assert x[0] == w[0] && x[|x| - 1] == ext[|ext| - 1];
    AlnumEnds(w);
    AlnumEnds(ext);
    TidyTrailing(str + " ", x);
    LowerJoined(w, ext);
  }

  /** Corrected, the extension is gone: "aula.mp4" gives "aula". */
  lemma CorrectedStripsExtension(w: string, ext: string)
    requires w != [] && AllAlnum(w) && !IsDigit(w[0])
    requires ext != [] && AllAlnum(ext)
    ensures ParseToTelegramHashtag(w + "." + ext) == Lower(w)
  {
    CorrectedDropsExtension(w, ext);
    PlainTitleMoved(w);
    UnderscoredWordSpace(w);
    AlnumEnds(w);
    TidyTrailing(w + " ", w);
  }

  /** A numbered title of two words: the number moves behind the words, in both
      versions. */
  lemma NumberedTitle(d: string, sep: string, a: string, b: string)
    requires d != [] && AllDigits(d)
    requires sep != [] && forall i :: 0 <= i < |sep| ==> IsNumberSeparator(sep[i])
    requires a != [] && AllAlnum(a) && b != [] && AllAlnum(b)
    ensures ParseToTelegramHashtagAsWritten(d + sep + (a + " " + b)) == Lower(a) + "_" + Lower(b) + "_" + d
    ensures ParseToTelegramHashtag(d + sep + (a + " " + b)) == Lower(a) + "_" + Lower(b) + "_" + d
  {
    var str := d + sep + (a + " " + b);
    NumberedKept(d, sep, a, b);
    AsWrittenIgnoresExtension(str);
    NumberedMoved(d, sep, a, b);
    NumberedTidy(a, b, d);
  }

  /** The title ends in a word after a space, so it has no extension to strip. */
  lemma NumberedKept(d: string, sep: string, a: string, b: string)
    requires AllAlnum(b)
    ensures StripExtension(d + sep + (a + " " + b)) == d + sep + (a + " " + b)
  {
    assert d + sep + (a + " " + b) == (d + sep + a + " ") + b;
    NothingToStrip(d + sep + a + " ", b);
  }

  lemma NumberedMoved(d: string, sep: string, a: string, b: string)
    requires d != [] && AllDigits(d)
    requires sep != [] && forall i :: 0 <= i < |sep| ==> IsNumberSeparator(sep[i])
    requires a != [] && AllAlnum(a) && b != [] && AllAlnum(b)
    ensures MoveNumber(d + sep + (a + " " + b)) == a + " " + b + " " + d
  {
    var title := a + " " + b;
    AlnumNotSpecial(a[0]);
    LeadingNumberMoved(d, sep, title);
    assert title[0] == a[0] && title[|title| - 1] == b[|b| - 1];
    AlnumNotSpecial(b[|b| - 1]);
    TrimUnchanged(title);
  }

  lemma NumberedTidy(a: string, b: string, d: string)
    requires d != [] && AllDigits(d)
    requires a != [] && AllAlnum(a) && b != [] && AllAlnum(b)
    ensures Tidy(a + " " + b + " " + d) == Lower(a) + "_" + Lower(b) + "_" + d
  {
    assert AllAlnum(d) by { assert forall i :: 0 <= i < |d| ==> IsAlnum(d[i]); }
    UnderscoredThree(a, b, d);
    var x := a + "_" + b + "_" + d;
    assert x[0] == a[0] && x[|x| - 1] == d[|d| - 1];
    AlnumEnds(a);
    AlnumEnds(d);
    TidyExact(a + " " + b + " " + d, x);
    NumberedLower(a, b, d);
  }

  lemma NumberedLower(a: string, b: string, d: string)
    requires AllDigits(d)
    ensures Lower(a + "_" + b + "_" + d) == Lower(a) + "_" + Lower(b) + "_" + d
  {
    LowerJoined(a + "_" + b, d);
    LowerJoined(a, b);
    LowerUnchanged(d);
  }

  // ---- two titles from the bot's data ----

  /** "001 - curso docker" becomes "curso_docker_001" in both versions. */
  lemma CourseTitleExample()
    ensures ParseToTelegramHashtagAsWritten("001 - curso docker") == "curso_docker_001"
    ensures ParseToTelegramHashtag("001 - curso docker") == "curso_docker_001"
  {
    ExampleWords();
    CourseTitlePieces();
    NumberedTitle("001", " - ", "curso", "docker");
  }

  lemma CourseTitlePieces()
    ensures "001 - curso docker" == "001" + " - " + ("curso" + " " + "docker")
    ensures "curso" + "_" + "docker" + "_" + "001" == "curso_docker_001"
  {
  }

  lemma ExampleWords()
    ensures AllDigits("001") && AllAlnum("curso") && AllAlnum("docker")
    ensures forall i :: 0 <= i < |" - "| ==> IsNumberSeparator(" - "[i])
    ensures Lower("curso") == "curso" && Lower("docker") == "docker"
  {
    LowerUnchanged("curso");
    LowerUnchanged("docker");
  }

  /** "aula.mp4" becomes "aula_mp4" as written, and "aula" corrected. */
  lemma VideoNameExample()
    ensures ParseToTelegramHashtagAsWritten("aula.mp4") == "aula_mp4"
    ensures ParseToTelegramHashtag("aula.mp4") == "aula"
  {
    VideoNameWords();
    AsWrittenKeepsExtension("aula", "mp4");
    CorrectedStripsExtension("aula", "mp4");
  }

  lemma VideoNameWords()
    ensures AllAlnum("aula") && AllAlnum("mp4") && !IsDigit("aula"[0])
    ensures Lower("aula") == "aula" && Lower("mp4") == "mp4"
    ensures "aula.mp4" == "aula" + "." + "mp4"
    ensures "aula" + "_" + "mp4" == "aula_mp4"
  {
    LowerUnchanged("aula");
    LowerUnchanged("mp4");
  }
}
