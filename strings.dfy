/**
 * The JavaScript string operations the bot relies on (`trim`, `split`, `join`,
 * `indexOf`, `toLowerCase` on ASCII, global regular-expression replacement of
 * character runs, `Number(...)` and `toString()` of integers), written once so
 * that every module of the model reads them the same way.
 */
module Strings {
  import opened Wrappers

  /** The characters matched by JavaScript's `\s`: WhiteSpace and LineTerminator.
      `String.prototype.trim` strips exactly this set. */
  predicate IsSpace(c: char) {
    || c == '\t' || c == '\n' || c == '\U{000B}' || c == '\U{000C}' || c == '\r' || c == ' '
    || c == '\U{00A0}' || c == '\U{1680}' || ('\U{2000}' <= c <= '\U{200A}')
    || c == '\U{2028}' || c == '\U{2029}' || c == '\U{202F}' || c == '\U{205F}'
    || c == '\U{3000}' || c == '\U{FEFF}'
  }

  /** JavaScript's `\d`: ASCII digits only. */
  predicate IsDigit(c: char) { '0' <= c <= '9' }

  predicate IsUpper(c: char) { 'A' <= c <= 'Z' }

  predicate IsLower(c: char) { 'a' <= c <= 'z' }

  /** The class `[a-zA-Z0-9]`. */
  predicate IsAlnum(c: char) { IsDigit(c) || IsUpper(c) || IsLower(c) }

  function LowerChar(c: char): char {
    if IsUpper(c) then (c as int + 32) as char else c
  }

  /** `toLowerCase` restricted to ASCII letters; every other character is kept. */
  function Lower(s: string): (r: string)
    ensures |r| == |s|
  {
    seq(|s|, i requires 0 <= i < |s| => LowerChar(s[i]))
  }

  /** The lower case has no upper-case letter, changes exactly the upper-case
      letters, and keeps letters and digits letters and digits. */
  lemma LowerSpec(s: string)
    ensures forall i :: 0 <= i < |s| ==> !IsUpper(Lower(s)[i])
    ensures forall i :: 0 <= i < |s| ==> (Lower(s)[i] == s[i] <==> !IsUpper(s[i]))
    ensures forall i :: 0 <= i < |s| ==> (IsAlnum(Lower(s)[i]) <==> IsAlnum(s[i]))
  {
  }

  /** Lowering works character by character, so it distributes over `+`. */
  lemma LowerAppend(a: string, b: string)
    ensures Lower(a + b) == Lower(a) + Lower(b)
  {
    assert forall i :: 0 <= i < |a + b| ==> Lower(a + b)[i] == (Lower(a) + Lower(b))[i];
  }

  /** A string without upper-case letters is its own lower case. */
  lemma LowerUnchanged(s: string)
    requires forall i :: 0 <= i < |s| ==> !IsUpper(s[i])
    ensures Lower(s) == s
  {
  }

  /** `s` without its longest prefix of characters satisfying `p`. */
  function DropWhile(s: string, p: char -> bool): (r: string)
    ensures |r| <= |s| && r == s[|s| - |r|..]
    ensures r == [] || !p(r[0])
  {
    if s == [] || !p(s[0]) then s else DropWhile(s[1..], p)
  }

  /** Every character `DropWhile` removes satisfies `p`. */
  lemma {:induction false} DropWhileSkipped(s: string, p: char -> bool)
    ensures forall i :: 0 <= i < |s| - |DropWhile(s, p)| ==> p(s[i])
    decreases |s|
  {
    if s != [] && p(s[0]) {
      DropWhileSkipped(s[1..], p);
    }
  }

  /** `s` without its longest suffix of characters satisfying `p`. */
  function DropWhileEnd(s: string, p: char -> bool): (r: string)
    ensures |r| <= |s| && r == s[..|r|]
    ensures r == [] || !p(r[|r| - 1])
  {
    if s == [] || !p(s[|s| - 1]) then s else DropWhileEnd(s[..|s| - 1], p)
  }

  /** Every character `DropWhileEnd` removes satisfies `p`. */
  lemma {:induction false} DropWhileEndSkipped(s: string, p: char -> bool)
    ensures forall i :: |DropWhileEnd(s, p)| <= i < |s| ==> p(s[i])
    decreases |s|
  {
    if s != [] && p(s[|s| - 1]) {
      DropWhileEndSkipped(s[..|s| - 1], p);
    }
  }

  /** Dropping a trailing run of `p` characters that follows a character outside `p`. */
  lemma {:induction false} DropWhileEndRun(t: string, run: string, p: char -> bool)
    requires t == [] || !p(t[|t| - 1])
    requires forall i :: 0 <= i < |run| ==> p(run[i])
    ensures DropWhileEnd(t + run, p) == t
    decreases |run|
  {
    if run == [] {
      assert t + run == t;
    } else {
      var s := t + run;
      assert s[..|s| - 1] == t + run[..|run| - 1];
      DropWhileEndRun(t, run[..|run| - 1], p);
    }
  }

  /** The number of white-space characters `trim` removes from the front of `s`. */
  function TrimOffset(s: string): nat
  {
    |s| - |DropWhile(s, IsSpace)|
  }

  /** `String.prototype.trim`: the slice of `s` between its leading and trailing
      white space; a string without white space at either end is unchanged. */
  function Trim(s: string): (r: string)
    ensures r == [] || (!IsSpace(r[0]) && !IsSpace(r[|r| - 1]))
    ensures TrimOffset(s) + |r| <= |s| && r == s[TrimOffset(s)..TrimOffset(s) + |r|]
  {
    var t := DropWhile(s, IsSpace);
    var r := DropWhileEnd(t, IsSpace);
    assert r == t[..|r|];
    r
  }

  /** A string that neither starts nor ends with white space is its own trim. */
  lemma TrimUnchanged(s: string)
    requires s == [] || (!IsSpace(s[0]) && !IsSpace(s[|s| - 1]))
    ensures Trim(s) == s
  {
    assert DropWhile(s, IsSpace) == s;
  }

  /** The characters of `s` satisfying `p`, in order (a global replace of `[^...]` by ''). */
  function Filter(s: string, p: char -> bool): (r: string)
    ensures |r| <= |s|
  {
    if s == [] then []
    else
      var rest := Filter(s[1..], p);
      if p(s[0]) then [s[0]] + rest else rest
  }

  /** The filtered string holds exactly the characters of `s` that pass. */
  lemma {:induction false} FilterSpec(s: string, p: char -> bool)
    ensures forall c :: c in Filter(s, p) <==> c in s && p(c)
    decreases |s|
  {
    if s != [] {
      FilterSpec(s[1..], p);
      assert forall c :: c in s <==> c == s[0] || c in s[1..];
    }
  }

  lemma {:induction false} FilterAppend(a: string, b: string, p: char -> bool)
    ensures Filter(a + b, p) == Filter(a, p) + Filter(b, p)
    decreases |a|
  {
    if a == [] {
      assert a + b == b;
    } else {
      assert (a + b)[0] == a[0] && (a + b)[1..] == a[1..] + b;
      FilterAppend(a[1..], b, p);
    }
  }

  /** Filtering keeps a string whose characters all pass. */
  lemma {:induction false} FilterAll(s: string, p: char -> bool)
    requires forall i :: 0 <= i < |s| ==> p(s[i])
    ensures Filter(s, p) == s
    decreases |s|
  {
    if s != [] {
      FilterAll(s[1..], p);
    }
  }

  /**
   * The global replacement of every maximal run of characters satisfying `p`
   * by the single character `c` (the regular expression `/[...]+/g`).
   */
  function CollapseRuns(s: string, p: char -> bool, c: char): (r: string)
    ensures s == [] <==> r == []
    ensures |r| <= |s|
    ensures s != [] ==> r[0] == (if p(s[0]) then c else s[0])
    ensures s != [] ==> r[|r| - 1] == (if p(s[|s| - 1]) then c else s[|s| - 1])
  {
    CollapseFrom(s, p, c, false)
  }

  /** Scans `s` left to right; `inRun` says whether the character before `s`
      already belonged to a run, whose replacement has then been emitted. */
  function CollapseFrom(s: string, p: char -> bool, c: char, inRun: bool): (r: string)
    ensures |r| <= |s|
    ensures !inRun && s != [] ==> r != []
    ensures s != [] && !p(s[0]) ==> r != [] && r[0] == s[0]
    ensures s != [] && p(s[0]) && !inRun ==> r[0] == c
    ensures s != [] && !p(s[|s| - 1]) ==> r != [] && r[|r| - 1] == s[|s| - 1]
    ensures s != [] && p(s[|s| - 1]) && r != [] ==> r[|r| - 1] == c
  {
    if s == [] then []
    else if p(s[0]) then (if inRun then [] else [c]) + CollapseFrom(s[1..], p, c, true)
    else [s[0]] + CollapseFrom(s[1..], p, c, false)
  }

  /** Whether a scan that started with `inRun` is inside a run after reading `a`. */
  function RunAfter(a: string, p: char -> bool, inRun: bool): bool {
    if a == [] then inRun else p(a[|a| - 1])
  }

  /** Scanning a concatenation is scanning each part, the second one starting in
      whatever run state the first one ended in. */
  lemma {:induction false} CollapseFromAppend(a: string, b: string, p: char -> bool, c: char, inRun: bool)
    ensures CollapseFrom(a + b, p, c, inRun)
         == CollapseFrom(a, p, c, inRun) + CollapseFrom(b, p, c, RunAfter(a, p, inRun))
    decreases |a|
  {
    if a == [] {
      assert a + b == b;
    } else {
      assert (a + b)[0] == a[0] && (a + b)[1..] == a[1..] + b;
      CollapseFromAppend(a[1..], b, p, c, p(a[0]));
    }
  }

  /** Collapsing distributes over a concatenation whose seam is not inside a run. */
  lemma CollapseAppend(a: string, b: string, p: char -> bool, c: char)
    requires a == [] || b == [] || !p(a[|a| - 1]) || !p(b[0])
    ensures CollapseRuns(a + b, p, c) == CollapseRuns(a, p, c) + CollapseRuns(b, p, c)
  {
    CollapseFromAppend(a, b, p, c, false);
    if b != [] && !p(b[0]) {
      assert CollapseFrom(b, p, c, true) == CollapseFrom(b, p, c, false);
    }
  }

  /** A run of `p` characters collapses to exactly one `c`. */
  lemma {:induction false} CollapseRun(run: string, p: char -> bool, c: char)
    requires run != [] && forall i :: 0 <= i < |run| ==> p(run[i])
    ensures CollapseRuns(run, p, c) == [c]
  {
    RunInsideRun(run[1..], p, c);
  }

  lemma {:induction false} RunInsideRun(run: string, p: char -> bool, c: char)
    requires forall i :: 0 <= i < |run| ==> p(run[i])
    ensures CollapseFrom(run, p, c, true) == []
    decreases |run|
  {
    if run != [] {
      RunInsideRun(run[1..], p, c);
    }
  }

  /** Every character of the result is `c` or a character of `s` outside every run. */
  lemma {:induction false} CollapseChars(s: string, p: char -> bool, c: char, inRun: bool)
    ensures forall x :: x in CollapseFrom(s, p, c, inRun) ==> x == c || (x in s && !p(x))
    decreases |s|
  {
    if s != [] {
      CollapseChars(s[1..], p, c, p(s[0]));
      assert forall x :: x in s[1..] ==> x in s;
    }
  }

  /** When `c` itself belongs to the runs, the result never holds `c` twice in a row. */
  lemma {:induction false} CollapseNoDoubles(s: string, p: char -> bool, c: char, inRun: bool)
    requires p(c)
    ensures forall i :: 0 <= i < |CollapseFrom(s, p, c, inRun)| - 1 ==>
      !(CollapseFrom(s, p, c, inRun)[i] == c && CollapseFrom(s, p, c, inRun)[i + 1] == c)
    decreases |s|
  {
    if s != [] {
      CollapseNoDoubles(s[1..], p, c, p(s[0]));
      var r := CollapseFrom(s, p, c, inRun);
      var rest := CollapseFrom(s[1..], p, c, p(s[0]));
      CollapseChars(s, p, c, inRun);
      if p(s[0]) && !inRun {
        assert r == [c] + rest;
        // after a run the scan is inside it, so the next emitted character is not `c`
        assert rest != [] ==> rest[0] != c by {
          CollapseChars(s[1..], p, c, true);
          if rest != [] { RunNextNotC(s[1..], p, c); }
        }
      }
    }
  }

  /** Inside a run, the first character emitted is one that is not in a run. */
  lemma {:induction false} RunNextNotC(s: string, p: char -> bool, c: char)
    requires p(c) && CollapseFrom(s, p, c, true) != []
    ensures CollapseFrom(s, p, c, true)[0] != c
    decreases |s|
  {
    if p(s[0]) {
      RunNextNotC(s[1..], p, c);
    }
  }

  /** A string with no `p` character is left unchanged. */
  lemma {:induction false} CollapseNoRun(s: string, p: char -> bool, c: char)
    requires forall i :: 0 <= i < |s| ==> !p(s[i])
    ensures CollapseRuns(s, p, c) == s
    decreases |s|
  {
    if s != [] {
      CollapseNoRun(s[1..], p, c);
    }
  }

  /** `parts.join(sep)`. */
  function Join(parts: seq<string>, sep: char): (r: string)
    ensures |parts| == 1 ==> r == parts[0]
  {
    if parts == [] then []
    else if |parts| == 1 then parts[0]
    else parts[0] + [sep] + Join(parts[1..], sep)
  }

  /** `s.split(sep)` for a one-character separator: the pieces between the
      occurrences of `sep`, so there is always at least one piece. */
  function Split(s: string, sep: char): (parts: seq<string>)
    ensures |parts| >= 1
    decreases |s|
  {
    if s == [] then [[]]
    else
      var rest := Split(s[1..], sep);
      if s[0] == sep then [[]] + rest else [[s[0]] + rest[0]] + rest[1..]
  }

  /** The pieces hold no separator, and joining them gives the string back. */
  lemma {:induction false} SplitSpec(s: string, sep: char)
    ensures forall i :: 0 <= i < |Split(s, sep)| ==> sep !in Split(s, sep)[i]
    ensures Join(Split(s, sep), sep) == s
    decreases |s|
  {
    if s != [] {
      SplitSpec(s[1..], sep);
      var rest := Split(s[1..], sep);
      var parts := Split(s, sep);
      if s[0] == sep {
        assert parts[1..] == rest;
        assert s == [sep] + s[1..];
      } else {
        assert parts[1..] == rest[1..];
        assert forall i :: 1 <= i < |parts| ==> parts[i] == rest[i];
        if |rest| == 1 {
          assert s == [s[0]] + rest[0];
        } else {
          assert Join(rest, sep) == rest[0] + [sep] + Join(rest[1..], sep);
          assert s == [s[0]] + s[1..];
        }
      }
    }
  }

  /** Splitting a join of separator-free pieces gives the pieces back. */
  lemma {:induction false} SplitJoin(parts: seq<string>, sep: char)
    requires |parts| >= 1
    requires forall i :: 0 <= i < |parts| ==> sep !in parts[i]
    ensures Split(Join(parts, sep), sep) == parts
    decreases |parts|, |parts[0]|
  {
    if |parts| == 1 {
      SplitFree(parts[0], sep);
    } else if parts[0] == [] {
      var tail := Join(parts[1..], sep);
      assert Join(parts, sep) == [sep] + tail;
      assert ([sep] + tail)[1..] == tail;
      SplitJoin(parts[1..], sep);
      assert [[]] + parts[1..] == parts;
    } else {
      var shorter := [parts[0][1..]] + parts[1..];
      assert shorter[1..] == parts[1..];
      assert forall i :: 1 <= i < |shorter| ==> shorter[i] == parts[i];
      assert forall x :: x in parts[0][1..] ==> x in parts[0];
      SplitJoin(shorter, sep);
      var j := Join(parts, sep);
      assert j == [parts[0][0]] + Join(shorter, sep);
      assert j[1..] == Join(shorter, sep);
      assert j[0] != sep;
      assert parts[0] == [parts[0][0]] + parts[0][1..];
      assert [[parts[0][0]] + parts[0][1..]] + parts[1..] == parts;
    }
  }

  lemma {:induction false} SplitFree(s: string, sep: char)
    requires sep !in s
    ensures Split(s, sep) == [s]
    decreases |s|
  {
    if s != [] {
      assert forall x :: x in s[1..] ==> x in s;
      SplitFree(s[1..], sep);
      assert [s[0]] + s[1..] == s;
    }
  }

  /** `parts.map((p) => p.trim())`. */
  function TrimAll(parts: seq<string>): (r: seq<string>)
    ensures |r| == |parts|
  {
    seq(|parts|, i requires 0 <= i < |parts| => Trim(parts[i]))
  }

  /** There is one more piece than there are separators. */
  lemma {:induction false} SplitCount(s: string, sep: char)
    ensures |Split(s, sep)| == multiset(s)[sep] + 1
    decreases |s|
  {
    if s != [] {
      SplitCount(s[1..], sep);
      assert s == [s[0]] + s[1..];
    }
  }

  /** `t` occurs in `s` starting at index `j`. */
  predicate OccursAt(s: string, t: string, j: int) {
    0 <= j && j + |t| <= |s| && s[j..j + |t|] == t
  }

  /** `s.indexOf(t)`: the first index at which `t` occurs, `None` for JavaScript's -1. */
  function IndexOf(s: string, t: string): (r: Option<nat>)
    ensures r.Some? ==> OccursAt(s, t, r.value)
    ensures r.Some? ==> forall j :: 0 <= j < r.value ==> !OccursAt(s, t, j)
    ensures r.None? ==> forall j :: 0 <= j <= |s| ==> !OccursAt(s, t, j)
  {
    IndexFrom(s, t, 0)
  }

  function IndexFrom(s: string, t: string, k: nat): (r: Option<nat>)
    requires forall j :: 0 <= j < k ==> !OccursAt(s, t, j)
    ensures r.Some? ==> k <= r.value && OccursAt(s, t, r.value)
    ensures r.Some? ==> forall j :: 0 <= j < r.value ==> !OccursAt(s, t, j)
    ensures r.None? ==> forall j :: 0 <= j <= |s| ==> !OccursAt(s, t, j)
    decreases |s| + 1 - k
  {
    if k + |t| > |s| then None
    else if s[k..k + |t|] == t then Some(k)
    else IndexFrom(s, t, k + 1)
  }

  /** When the first character of `t` is absent from `pre`, the first
      occurrence of `t` in `pre + t + post` is right after `pre`. */
  lemma {:induction false} IndexOfAfterPrefix(pre: string, t: string, post: string)
    requires t != [] && t[0] !in pre
    ensures IndexOf(pre + t + post, t) == Some(|pre|)
  {
    var s := pre + t + post;
    assert OccursAt(s, t, |pre|) by { assert s[|pre|..|pre| + |t|] == t; }
    forall j | 0 <= j < |pre|
      ensures !OccursAt(s, t, j)
    {
      if j + |t| <= |s| {
        assert s[j..j + |t|][0] == pre[j] && pre[j] != t[0];
      }
    }
  }

  function DigitValue(c: char): nat
    requires IsDigit(c)
  {
    c as int - '0' as int
  }

  function DigitChar(d: nat): (c: char)
    requires d < 10
    ensures IsDigit(c) && DigitValue(c) == d
  {
    ('0' as int + d) as char
  }

  predicate AllDigits(s: string) {
    forall i :: 0 <= i < |s| ==> IsDigit(s[i])
  }

  /** The value of a string of decimal digits. */
  function DigitsValue(s: string): nat
    requires AllDigits(s)
  {
    if s == [] then 0 else DigitsValue(s[..|s| - 1]) * 10 + DigitValue(s[|s| - 1])
  }

  /** `n.toString()` for a non-negative integer. */
  function DecimalString(n: nat): (s: string)
    ensures s != [] && AllDigits(s)
  {
    if n < 10 then [DigitChar(n)] else DecimalString(n / 10) + [DigitChar(n % 10)]
  }

  /** JavaScript's `Number(s)` on blank and decimal strings: surrounding white
      space is ignored, the empty string is 0, a run of decimal digits is its
      value. Signs, fractions, exponents, radix prefixes and `Infinity` are not
      modelled: every other string is read as NaN (`None`). */
  function NumberOf(s: string): Option<nat> {
    var t := Trim(s);
    if t == [] then Some(0)
    else if AllDigits(t) then Some(DigitsValue(t))
    else None
  }

  /** `Number(s)` is a number exactly when the trimmed string is empty or all
      digits, and then it is 0 or the value of those digits. */
  lemma NumberOfSpec(s: string)
    ensures NumberOf(s).Some? <==> Trim(s) == [] || AllDigits(Trim(s))
    ensures Trim(s) == [] ==> NumberOf(s) == Some(0)
    ensures Trim(s) != [] && AllDigits(Trim(s)) ==> NumberOf(s) == Some(DigitsValue(Trim(s)))
  {
  }

  /** A string that starts with neither white space nor a digit, and does not
      end in white space, is not a number. */
  lemma NotANumber(t: string)
    requires t != [] && !IsSpace(t[0]) && !IsSpace(t[|t| - 1]) && !IsDigit(t[0])
    ensures NumberOf(t) == None
  {
    TrimUnchanged(t);
  }

  /** Printing a number and reading it back gives the number. */
  lemma {:induction false} DecimalValue(n: nat)
    ensures DigitsValue(DecimalString(n)) == n
  {
    if n >= 10 {
      var s := DecimalString(n);
      DecimalValue(n / 10);
      assert s[..|s| - 1] == DecimalString(n / 10);
    }
  }

  lemma DecimalRoundTrip(n: nat)
    ensures NumberOf(DecimalString(n)) == Some(n)
  {
    var s := DecimalString(n);
    DecimalValue(n);
    DigitsUntrimmed(s);
  }

  /** A string of digits has no white space to trim. */
  lemma DigitsUntrimmed(s: string)
    requires s != [] && AllDigits(s)
    ensures Trim(s) == s
  {
    assert IsDigit(s[0]) && IsDigit(s[|s| - 1]);
    TrimUnchanged(s);
  }
}
