/**
 * The Python string operations the voice command parser is built from, with
 * the edge cases of CPython's str methods: strip(), split() without a
 * separator, startswith, the `in` operator, replace(old, '') with and without
 * a count, lower() and isdigit()/int() on decimal tokens. Whitespace is the
 * full set str.isspace() accepts; case folding is the ASCII one.
 */
module Text {

  /**
   * The characters str.strip() and str.split() treat as whitespace: tab to
   * carriage return, the four information separators, space, and the
   * Unicode spaces and line and paragraph separators.
   */
  predicate IsSpace(c: char)
  {
    ('\t' <= c <= '\r') || ('\U{001C}' <= c <= ' ') || c == '\U{0085}' || c == '\U{00A0}' ||
    c == '\U{1680}' || ('\U{2000}' <= c <= '\U{200A}') || c == '\U{2028}' || c == '\U{2029}' ||
    c == '\U{202F}' || c == '\U{205F}' || c == '\U{3000}'
  }

  predicate AllSpace(s: string)
  {
    forall i :: 0 <= i < |s| ==> IsSpace(s[i])
  }

  predicate NoSpace(s: string)
  {
    forall i :: 0 <= i < |s| ==> !IsSpace(s[i])
  }

  /** A token split() can return: not empty and free of whitespace. */
  predicate IsToken(w: string)
  {
    w != [] && NoSpace(w)
  }

  // ---------------------------------------------------------------------------
  // Scanning for runs of whitespace and of other characters

  /** The end of the run of whitespace starting at `i`. */
  function SkipSpaces(s: string, i: nat): (j: nat)
    requires i <= |s|
    ensures i <= j <= |s|
    ensures j < |s| ==> !IsSpace(s[j])
    decreases |s| - i
  {
    if i == |s| || !IsSpace(s[i]) then i else SkipSpaces(s, i + 1)
  }

  /** The end of the run of non-whitespace starting at `i`. */
  function SkipWord(s: string, i: nat): (j: nat)
    requires i <= |s|
    ensures i <= j <= |s|
    ensures j < |s| ==> IsSpace(s[j])
    ensures i < |s| && !IsSpace(s[i]) ==> i < j
    decreases |s| - i
  {
    if i == |s| || IsSpace(s[i]) then i else SkipWord(s, i + 1)
  }

  /** The start of the run of whitespace ending at `j`. */
  function BackSpaces(s: string, j: nat): (i: nat)
    requires j <= |s|
    ensures i <= j
    ensures i > 0 ==> !IsSpace(s[i - 1])
    decreases j
  {
    if j == 0 || !IsSpace(s[j - 1]) then j else BackSpaces(s, j - 1)
  }

  /** SkipSpaces stops after a whitespace run, at a non-space or at the end. */
  lemma {:induction false} SkipSpacesRun(s: string, i: nat)
    requires i <= |s|
    ensures AllSpace(s[i..SkipSpaces(s, i)])
    decreases |s| - i
  {
    if i < |s| && IsSpace(s[i]) {
      SkipSpacesRun(s, i + 1);
      SpaceRunCons(s, i, SkipSpaces(s, i));
    }
  }

  /** SkipWord stops after a run of non-space characters, at whitespace or at the end. */
  lemma {:induction false} SkipWordRun(s: string, i: nat)
    requires i <= |s|
    ensures NoSpace(s[i..SkipWord(s, i)])
    decreases |s| - i
  {
    if i < |s| && !IsSpace(s[i]) {
      SkipWordRun(s, i + 1);
      WordRunCons(s, i, SkipWord(s, i));
    }
  }

  /** BackSpaces starts a whitespace run, after a non-space or at the start. */
  lemma {:induction false} BackSpacesRun(s: string, j: nat)
    requires j <= |s|
    ensures AllSpace(s[BackSpaces(s, j)..j])
    decreases j
  {
    if j > 0 && IsSpace(s[j - 1]) {
      BackSpacesRun(s, j - 1);
      SpaceRunSnoc(s, BackSpaces(s, j), j);
    }
  }

  /** A whitespace character in front of a whitespace run extends it. */
  lemma SpaceRunCons(s: string, i: nat, j: nat)
    requires i < |s| && i + 1 <= j <= |s| && IsSpace(s[i]) && AllSpace(s[i + 1..j])
    ensures AllSpace(s[i..j])
  {
    forall k | 0 <= k < j - i
      ensures IsSpace(s[i..j][k])
    {
      if k > 0 {
        assert s[i..j][k] == s[i + 1..j][k - 1];
      }
    }
  }

  /** A non-space character in front of a non-space run extends it. */
  lemma WordRunCons(s: string, i: nat, j: nat)
    requires i < |s| && i + 1 <= j <= |s| && !IsSpace(s[i]) && NoSpace(s[i + 1..j])
    ensures NoSpace(s[i..j])
  {
    forall k | 0 <= k < j - i
      ensures !IsSpace(s[i..j][k])
    {
      if k > 0 {
        assert s[i..j][k] == s[i + 1..j][k - 1];
      }
    }
  }

  /** A whitespace character after a whitespace run extends it. */
  lemma SpaceRunSnoc(s: string, i: nat, j: nat)
    requires 0 < j <= |s| && i <= j - 1 && IsSpace(s[j - 1]) && AllSpace(s[i..j - 1])
    ensures AllSpace(s[i..j])
  {
    forall k | 0 <= k < j - i
      ensures IsSpace(s[i..j][k])
    {
      if k < j - 1 - i {
        assert s[i..j][k] == s[i..j - 1][k];
      }
    }
  }

  /** The first character of a whitespace run is whitespace and the rest is a run. */
  lemma SpaceRunTail(s: string, i: nat, j: nat)
    requires i < j <= |s| && AllSpace(s[i..j])
    ensures IsSpace(s[i]) && AllSpace(s[i + 1..j])
  {
    assert s[i..j][0] == s[i];
    var t := s[i + 1..j];
    forall k | 0 <= k < |t|
      ensures IsSpace(t[k])
    {
      assert t[k] == s[i..j][k + 1];
    }
  }

  /** The first character of a non-space run is not whitespace and the rest is a run. */
  lemma WordRunTail(s: string, i: nat, j: nat)
    requires i < j <= |s| && NoSpace(s[i..j])
    ensures !IsSpace(s[i]) && NoSpace(s[i + 1..j])
  {
    assert s[i..j][0] == s[i];
    var t := s[i + 1..j];
    forall k | 0 <= k < |t|
      ensures !IsSpace(t[k])
    {
      assert t[k] == s[i..j][k + 1];
    }
  }

  /** The last character of a whitespace run is whitespace and the rest is a run. */
  lemma SpaceRunInit(s: string, i: nat, j: nat)
    requires i < j <= |s| && AllSpace(s[i..j])
    ensures IsSpace(s[j - 1]) && AllSpace(s[i..j - 1])
  {
    assert s[i..j][j - 1 - i] == s[j - 1];
    var t := s[i..j - 1];
    forall k | 0 <= k < |t|
      ensures IsSpace(t[k])
    {
      assert t[k] == s[i..j][k];
    }
  }

  /** A whitespace run that stops at a non-space or at the end is the one SkipSpaces finds. */
  lemma {:induction false} SkipSpacesAt(s: string, i: nat, j: nat)
    requires i <= j <= |s|
    requires AllSpace(s[i..j])
    requires j < |s| ==> !IsSpace(s[j])
    ensures SkipSpaces(s, i) == j
    decreases j - i
  {
    if i < j {
      SpaceRunTail(s, i, j);
      SkipSpacesAt(s, i + 1, j);
    }
  }

  /** A non-space run that stops at a space or at the end is the one SkipWord finds. */
  lemma {:induction false} SkipWordAt(s: string, i: nat, j: nat)
    requires i <= j <= |s|
    requires NoSpace(s[i..j])
    requires j < |s| ==> IsSpace(s[j])
    ensures SkipWord(s, i) == j
    decreases j - i
  {
    if i < j {
      WordRunTail(s, i, j);
      SkipWordAt(s, i + 1, j);
    }
  }

  /** A whitespace run that starts after a non-space or at the start is the one BackSpaces finds. */
  lemma {:induction false} BackSpacesAt(s: string, i: nat, j: nat)
    requires i <= j <= |s|
    requires AllSpace(s[i..j])
    requires i > 0 ==> !IsSpace(s[i - 1])
    ensures BackSpaces(s, j) == i
    decreases j - i
  {
    if i < j {
      SpaceRunInit(s, i, j);
      BackSpacesAt(s, i, j - 1);
    }
  }

  /** Slicing behind a prefix `p` is slicing `s`. */
  lemma SliceShift(p: string, s: string, a: nat, b: nat)
    requires a <= b <= |s|
    ensures (p + s)[|p| + a..|p| + b] == s[a..b]
    ensures (p + s)[|p| + a..] == s[a..]
  {
  }

  /** Dropping from `s + b` inside `s`, or taking from it, leaves `b` untouched or unseen. */
  lemma SliceAppend(s: string, b: string, n: nat)
    requires n <= |s|
    ensures (s + b)[n..] == s[n..] + b
    ensures (s + b)[..n] == s[..n]
  {
  }

  /** The whitespace run of `t[d..]` is the one of `t`, shifted by `d`. */
  lemma {:induction false} SkipSpacesDrop(t: string, d: nat, i: nat)
    requires d + i <= |t|
    ensures SkipSpaces(t, d + i) == d + SkipSpaces(t[d..], i)
    decreases |t| - d - i
  {
    if d + i < |t| {
      assert t[d..][i] == t[d + i];
      if IsSpace(t[d + i]) {
        SkipSpacesDrop(t, d, i + 1);
      }
    }
  }

  /** The non-space run of `t[d..]` is the one of `t`, shifted by `d`. */
  lemma {:induction false} SkipWordDrop(t: string, d: nat, i: nat)
    requires d + i <= |t|
    ensures SkipWord(t, d + i) == d + SkipWord(t[d..], i)
    decreases |t| - d - i
  {
    if d + i < |t| {
      assert t[d..][i] == t[d + i];
      if !IsSpace(t[d + i]) {
        SkipWordDrop(t, d, i + 1);
      }
    }
  }

  /** Behind a prefix `p`, the whitespace run of `s` is found shifted by |p|. */
  lemma {:induction false} SkipSpacesShift(p: string, s: string, i: nat)
    requires i <= |s|
    ensures SkipSpaces(p + s, |p| + i) == |p| + SkipSpaces(s, i)
    decreases |s| - i
  {
    if i < |s| {
      assert (p + s)[|p| + i] == s[i];
      if IsSpace(s[i]) {
        SkipSpacesShift(p, s, i + 1);
      }
    }
  }

  /** A whitespace run that stops inside `s` is not changed by text appended to `s`. */
  lemma {:induction false} SkipSpacesAppend(s: string, b: string, i: nat)
    requires i <= |s| && SkipSpaces(s, i) < |s|
    ensures SkipSpaces(s + b, i) == SkipSpaces(s, i)
    decreases |s| - i
  {
    assert (s + b)[i] == s[i];
    if IsSpace(s[i]) {
      SkipSpacesAppend(s, b, i + 1);
    }
  }

  /** Whitespace followed by whitespace is whitespace. */
  lemma AllSpaceAppend(a: string, b: string)
    requires AllSpace(a) && AllSpace(b)
    ensures AllSpace(a + b)
  {
    forall k | 0 <= k < |a + b|
      ensures IsSpace((a + b)[k])
    {
      if k < |a| {
        assert (a + b)[k] == a[k];
      } else {
        assert (a + b)[k] == b[k - |a|];
      }
    }
  }

  /** A whitespace run reaching the end of the string ends there. */
  lemma {:induction false} SkipSpacesToEnd(t: string, i: nat)
    requires i <= |t|
    requires AllSpace(t[i..])
    ensures SkipSpaces(t, i) == |t|
    decreases |t| - i
  {
    if i < |t| {
      assert t[i..][0] == t[i];
      assert t[i + 1..] == t[i..][1..];
      SkipSpacesToEnd(t, i + 1);
    }
  }

  /** From inside a whitespace prefix `a`, the run goes on past `a`. */
  lemma {:induction false} SkipSpacesOver(a: string, x: string, i: nat)
    requires AllSpace(a) && i <= |a|
    ensures SkipSpaces(a + x, i) == |a| + SkipSpaces(x, 0)
    decreases |a| - i
  {
    if i < |a| {
      assert (a + x)[i] == a[i];
      SkipSpacesOver(a, x, i + 1);
    } else {
      SkipSpacesShift(a, x, 0);
    }
  }

  // ---------------------------------------------------------------------------
  // strip()

  /** s.lstrip() */
  function TrimStart(s: string): string
  {
    s[SkipSpaces(s, 0)..]
  }

  /** s.rstrip() */
  function TrimEnd(s: string): string
  {
    s[..BackSpaces(s, |s|)]
  }

  /** s.strip() */
  function Strip(s: string): (r: string)
    ensures |r| <= |s|
    ensures r != [] ==> !IsSpace(r[0]) && !IsSpace(r[|r| - 1])
  {
    TrimEnd(TrimStart(s))
  }

  /** What strip() keeps is a slice of `s` with only whitespace around it and no whitespace at its ends. */
  lemma StripSpec(s: string)
    ensures var r := Strip(s);
      exists i :: 0 <= i <= i + |r| <= |s| && r == s[i..i + |r|] &&
        AllSpace(s[..i]) && AllSpace(s[i + |r|..])
    ensures var r := Strip(s); r != [] ==> !IsSpace(r[0]) && !IsSpace(r[|r| - 1])
  {
    var i := SkipSpaces(s, 0);
    var t := s[i..];
    var e := BackSpaces(t, |t|);
    SkipSpacesRun(s, 0);
    BackSpacesRun(t, |t|);
    SliceOfDrop(s, i, e);
    assert t[e..|t|] == t[e..];
    assert Strip(s) == s[i..i + e];
    if e > 0 {
      assert t[0] == s[i];
    }
  }

  /**
   * Slices of `s[i..]` are slices of `s`. Kept apart so that these
   * extensionality steps are proved in a small context.
   */
  lemma SliceOfDrop(s: string, i: nat, e: nat)
    requires i + e <= |s|
    ensures s[i..][..e] == s[i..i + e]
    ensures s[i..][e..] == s[i + e..]
    ensures s[0..i] == s[..i]
  {
  }

  /** A string with no whitespace at its ends is left as it is by strip(). */
  lemma StripUnpadded(s: string)
    requires s == [] || (!IsSpace(s[0]) && !IsSpace(s[|s| - 1]))
    ensures Strip(s) == s
  {
    assert SkipSpaces(s, 0) == 0;
    assert s[0..] == s;
    assert BackSpaces(s, |s|) == |s|;
  }

  /** A leading space does not change what strip() keeps. */
  lemma StripLeadingSpace(s: string)
    ensures Strip(" " + s) == Strip(s)
  {
    TrimStartSpaces(" ", s);
  }

  /** strip() ignores whitespace added at either end. */
  lemma StripPadded(a: string, s: string, b: string)
    requires AllSpace(a) && AllSpace(b)
    ensures Strip(a + s + b) == Strip(s)
  {
    if SkipSpaces(s, 0) < |s| {
      TrimStartPadded(a, s, b);
      TrimEndPadded(TrimStart(s), b);
    } else {
      StripBlank(a, s, b);
    }
  }

  /** Leading whitespace goes and trailing text stays when `s` has a non-space. */
  lemma TrimStartPadded(a: string, s: string, b: string)
    requires AllSpace(a) && SkipSpaces(s, 0) < |s|
    ensures TrimStart(a + s + b) == TrimStart(s) + b
  {
    AppendAssoc(a, s, b);
    TrimStartSpaces(a, s + b);
    TrimStartAppend(s, b);
  }

  /** Regrouping a concatenation, kept apart for the same reason as SliceOfDrop. */
  lemma AppendAssoc(a: string, s: string, b: string)
    ensures a + s + b == a + (s + b)
  {
  }

  /** lstrip() removes any whitespace prefix. */
  lemma TrimStartSpaces(a: string, x: string)
    requires AllSpace(a)
    ensures TrimStart(a + x) == TrimStart(x)
  {
    var n := SkipSpaces(x, 0);
    SkipSpacesOver(a, x, 0);
    SliceShift(a, x, n, |x|);
  }

  /** Text appended after a non-space is kept whole by lstrip(). */
  lemma TrimStartAppend(s: string, b: string)
    requires SkipSpaces(s, 0) < |s|
    ensures TrimStart(s + b) == TrimStart(s) + b
  {
    var n := SkipSpaces(s, 0);
    SkipSpacesAppend(s, b, 0);
    SliceAppend(s, b, n);
  }

  /** Trailing whitespace after text that starts with a non-space goes. */
  lemma TrimEndPadded(u: string, b: string)
    requires AllSpace(b) && u != [] && !IsSpace(u[0])
    ensures TrimEnd(u + b) == TrimEnd(u)
  {
    var t := u + b;
    var e := BackSpaces(u, |u|);
    BackSpacesRun(u, |u|);
    assert e > 0;
    SliceAppend(u, b, e);
    AllSpaceAppend(u[e..], b);
    assert t[e..|t|] == t[e..];
    BackSpacesAt(t, e, |t|);
    assert t[..e] == u[..e];
  }

  /** Whitespace around a blank string strips to nothing, as the blank string does. */
  lemma StripBlank(a: string, s: string, b: string)
    requires AllSpace(a) && AllSpace(b) && SkipSpaces(s, 0) == |s|
    ensures Strip(a + s + b) == [] && Strip(s) == []
  {
    SkipSpacesRun(s, 0);
    assert s[0..|s|] == s;
    AllSpaceAppend(a, s);
    AllSpaceAppend(a + s, b);
    SkipSpacesToEnd(a + s + b, 0);
  }

  // ---------------------------------------------------------------------------
  // split() and ' '.join()

  /**
   * s.split(): the maximal runs of non-whitespace, in order. There are no
   * more words than characters, and none at all exactly when the text is
   * blank.
   */
  function Split(s: string): (ws: seq<string>)
    ensures |ws| <= |s|
    ensures ws == [] <==> AllSpace(s)
    decreases |s|
  {
    var a := SkipSpaces(s, 0);
    SkipSpacesRun(s, 0);
    assert s[0..a] == s[..a];
    if a == |s| then []
    else
      var b := SkipWord(s, a);
      [s[a..b]] + Split(s[b..])
  }

  /** Every word split() returns is non-empty and free of whitespace. */
  lemma {:induction false} SplitTokens(s: string)
    ensures forall i :: 0 <= i < |Split(s)| ==> IsToken(Split(s)[i])
    decreases |s|
  {
    var a := SkipSpaces(s, 0);
    if a < |s| {
      var b := SkipWord(s, a);
      SkipWordRun(s, a);
      SplitTokens(s[b..]);
      var ws := Split(s);
      SplitStep(s, a, b);
      forall k | 0 <= k < |ws|
        ensures IsToken(ws[k])
      {
        if k > 0 {
          assert ws[k] == Split(s[b..])[k - 1];
        }
      }
    }
  }

  /** ' '.join(ws) */
  function Join(ws: seq<string>): string
  {
    if |ws| == 0 then ""
    else if |ws| == 1 then ws[0]
    else ws[0] + " " + Join(ws[1..])
  }

  /** Splitting the space-joined tokens gives the tokens back. */
  lemma {:induction false} SplitJoin(ws: seq<string>)
    requires forall i :: 0 <= i < |ws| ==> IsToken(ws[i])
    ensures Split(Join(ws)) == ws
  {
    if |ws| == 0 {
      assert Split("") == [];
    } else if |ws| == 1 {
      SplitToken(ws[0], "");
      assert ws[0] + "" == ws[0];
      assert Split("") == [];
    } else {
      var j := Join(ws[1..]);
      var rest := " " + j;
      assert Join(ws) == ws[0] + rest;
      SplitToken(ws[0], rest);
      SplitLeadingSpace(j);
      SplitJoin(ws[1..]);
      assert [ws[0]] + ws[1..] == ws;
    }
  }

  /** A token followed by whitespace or nothing is split() off as the first token. */
  lemma SplitToken(w: string, rest: string)
    requires IsToken(w)
    requires rest == [] || IsSpace(rest[0])
    ensures Split(w + rest) == [w] + Split(rest)
  {
    var t := w + rest;
    assert SkipSpaces(t, 0) == 0;
    SkipWordAt(t, 0, |w|);
    assert t[0..|w|] == w;
    assert t[|w|..] == rest;
  }

  /** A leading space does not change what split() returns. */
  lemma SplitLeadingSpace(s: string)
    ensures Split(" " + s) == Split(s)
  {
    SplitAfterSpace(" " + s);
    assert (" " + s)[1..] == s;
  }

  /** split() skips a leading whitespace character. */
  lemma SplitAfterSpace(t: string)
    requires t != [] && IsSpace(t[0])
    ensures Split(t) == Split(t[1..])
  {
    var s := t[1..];
    var a := SkipSpaces(s, 0);
    assert SkipSpaces(t, 0) == SkipSpaces(t, 1);
    SkipSpacesDrop(t, 1, 0);
    if a < |s| {
      var b := SkipWord(s, a);
      SkipWordDrop(t, 1, a);
      DropSlices(t, 1, a, b);
      SplitStep(t, 1 + a, 1 + b);
      SplitStep(s, a, b);
    } else {
      SplitBlank(t);
      SplitBlank(s);
    }
  }

  /** Slices of `t[d..]` are slices of `t`, shifted by `d`. */
  lemma DropSlices(t: string, d: nat, a: nat, b: nat)
    requires d + a <= d + b <= |t|
    ensures t[d..][a..b] == t[d + a..d + b]
    ensures t[d..][b..] == t[d + b..]
  {
  }

  /** One step of split(): the first token, then the split of what follows it. */
  lemma SplitStep(t: string, a: nat, b: nat)
    requires a == SkipSpaces(t, 0) < |t| && b == SkipWord(t, a)
    ensures Split(t) == [t[a..b]] + Split(t[b..])
  {
  }

  /** A string of whitespace only splits into no tokens. */
  lemma SplitBlank(t: string)
    requires SkipSpaces(t, 0) == |t|
    ensures Split(t) == []
  {
  }

  /** Joined tokens neither start nor end with whitespace, and only no tokens join to "". */
  lemma {:induction false} JoinEnds(ws: seq<string>)
    requires forall i :: 0 <= i < |ws| ==> IsToken(ws[i])
    ensures Join(ws) == [] <==> ws == []
    ensures ws != [] ==> !IsSpace(Join(ws)[0]) && !IsSpace(Join(ws)[|Join(ws)| - 1])
  {
    if |ws| > 1 {
      JoinEnds(ws[1..]);
      var j := Join(ws);
      assert j == ws[0] + " " + Join(ws[1..]);
      assert j[0] == ws[0][0];
      assert j[|j| - 1] == Join(ws[1..])[|Join(ws[1..])| - 1];
    }
  }

  /** s.startswith(p) */
  predicate StartsWith(s: string, p: string)
  {
    |p| <= |s| && s[..|p|] == p
  }

  /** `p` occurs in `s` starting at index `i`. */
  predicate OccursAt(s: string, p: string, i: int)
  {
    0 <= i <= |s| - |p| && s[i..i + |p|] == p
  }

  /** The `p in s` test of Python: `p` occurs in `s` at some index. */
  predicate Contains(s: string, p: string)
  {
    exists i :: 0 <= i <= |s| - |p| && OccursAt(s, p, i)
  }

  /**
   * The left-to-right scan of `p in s`: `p` is in `s` when `s` starts with it
   * or when it is in what follows the first character.
   */
  lemma ContainsStep(s: string, p: string)
    ensures Contains(s, p) <==> StartsWith(s, p) || (s != [] && Contains(s[1..], p))
  {
    if StartsWith(s, p) {
      assert s[0..|p|] == s[..|p|];
      assert OccursAt(s, p, 0);
    } else if s != [] {
      assert !OccursAt(s, p, 0) by {
        if |p| <= |s| {
          assert s[0..|p|] == s[..|p|];
        }
      }
      if Contains(s[1..], p) {
        var i :| 0 <= i <= |s[1..]| - |p| && OccursAt(s[1..], p, i);
        DropSlice(s, 1, i, |p|);
        assert OccursAt(s, p, i + 1);
      }
      if Contains(s, p) {
        var i :| 0 <= i <= |s| - |p| && OccursAt(s, p, i);
        assert i != 0;
        DropSlice(s, 1, i - 1, |p|);
        assert OccursAt(s[1..], p, i - 1);
      }
    }
  }

  /** A slice of `s[d..]` is a slice of `s`. */
  lemma DropSlice(s: string, d: nat, i: nat, n: nat)
    requires d + i + n <= |s|
    ensures s[d..][i..i + n] == s[d + i..d + i + n]
  {
  }

  /** An occurrence of `p` in `s` is an occurrence of it in `a + s + b`. */
  lemma ContainsWithin(a: string, s: string, b: string, p: string)
    requires Contains(s, p)
    ensures Contains(a + s + b, p)
  {
    var i :| 0 <= i <= |s| - |p| && OccursAt(s, p, i);
    assert (a + s + b)[|a| + i..|a| + i + |p|] == p;
    assert OccursAt(a + s + b, p, |a| + i);
  }

  /** Wherever `p + q` occurs, `p` occurs. */
  lemma ContainsPrefixOf(s: string, p: string, q: string)
    requires Contains(s, p + q)
    ensures Contains(s, p)
  {
    var i :| 0 <= i <= |s| - |p + q| && OccursAt(s, p + q, i);
    assert s[i..i + |p|] == s[i..i + |p + q|][..|p|] == (p + q)[..|p|] == p;
    assert OccursAt(s, p, i);
  }

  /** Wherever `p + q` occurs, `q` occurs. */
  lemma ContainsSuffixOf(s: string, p: string, q: string)
    requires Contains(s, p + q)
    ensures Contains(s, q)
  {
    var i :| 0 <= i <= |s| - |p + q| && OccursAt(s, p + q, i);
    assert s[i + |p|..i + |p| + |q|] == s[i..i + |p + q|][|p|..] == (p + q)[|p|..] == q;
    assert OccursAt(s, q, i + |p|);
  }

  /** Putting a space in front of `s` adds no occurrence of a `p` that does not start with one. */
  lemma NotContainsAfterSpace(s: string, p: string)
    requires p != [] && p[0] != ' ' && !Contains(s, p)
    ensures !Contains(" " + s, p)
  {
    var t := " " + s;
    forall i | 0 <= i <= |t| - |p|
      ensures !OccursAt(t, p, i)
    {
      if i == 0 {
        assert t[i..i + |p|][0] == ' ';
      } else {
        assert !OccursAt(s, p, i - 1);
        assert t[i..i + |p|] == s[i - 1..i - 1 + |p|];
      }
    }
  }

  /**
   * A prefix `q` adds no occurrence of `p` to `s` when `q + s` does not start
   * with `p` and no later character of `q` is the first one of `p`.
   */
  lemma NotContainsAfterPrefix(q: string, s: string, p: string)
    requires p != [] && !Contains(s, p) && !StartsWith(q + s, p)
    requires forall k :: 0 < k < |q| ==> q[k] != p[0]
    ensures !Contains(q + s, p)
  {
    var t := q + s;
    forall i | 0 <= i <= |t| - |p|
      ensures !OccursAt(t, p, i)
    {
      if i == 0 {
        assert t[..|p|] == t[0..|p|];
      } else if i < |q| {
        assert t[i..i + |p|][0] == q[i];
      } else {
        assert !OccursAt(s, p, i - |q|);
        assert t[i..i + |p|] == s[i - |q|..i - |q| + |p|];
      }
    }
  }

  /** A string with a character that is nowhere in `s` does not occur in `s`. */
  lemma NotContainsChar(s: string, p: string, k: nat)
    requires k < |p| && p[k] !in s
    ensures !Contains(s, p)
  {
    forall i | 0 <= i <= |s| - |p|
      ensures !OccursAt(s, p, i)
    {
      assert s[i..i + |p|][k] == s[i + k];
    }
  }

  /** s.replace(p, '') for a non-empty `p`: drop every occurrence, scanning left to right without overlap. */
  function RemoveAll(s: string, p: string): (r: string)
    requires p != []
    ensures |r| <= |s|
    ensures !Contains(s, p) ==> r == s
    decreases |s|
  {
    if |s| < |p| then s
    else
      ContainsStep(s, p);
      if s[..|p|] == p then RemoveAll(s[|p|..], p)
      else [s[0]] + RemoveAll(s[1..], p)
  }

  /** s.replace(p, '', 1) for a non-empty `p`: drop the first occurrence only. */
  function RemoveFirst(s: string, p: string): (r: string)
    requires p != []
    ensures |r| <= |s|
    ensures !Contains(s, p) ==> r == s
    decreases |s|
  {
    if |s| < |p| then s
    else
      ContainsStep(s, p);
      if s[..|p|] == p then s[|p|..]
      else [s[0]] + RemoveFirst(s[1..], p)
  }

  /** When `s` starts with `p`, removing the first occurrence removes that prefix. */
  lemma RemoveFirstPrefix(p: string, s: string)
    requires p != []
    ensures RemoveFirst(p + s, p) == s
  {
    assert (p + s)[..|p|] == p;
    assert (p + s)[|p|..] == s;
  }

  /** replace(p, '') on `p + s` removes the leading `p` and goes on with `s`. */
  lemma RemoveAllPrefix(p: string, s: string)
    requires p != []
    ensures RemoveAll(p + s, p) == RemoveAll(s, p)
  {
    assert (p + s)[..|p|] == p;
    assert (p + s)[|p|..] == s;
  }

  function LowerChar(c: char): char
  {
    if 'A' <= c <= 'Z' then (c as int + 32) as char else c
  }

  /** s.lower() on ASCII letters. */
  function Lower(s: string): (r: string)
    ensures |r| == |s|
  {
    seq(|s|, i requires 0 <= i < |s| => LowerChar(s[i]))
  }

  /** lower() leaves no upper-case letter behind and is idempotent. */
  lemma LowerIdempotent(s: string)
    ensures forall i :: 0 <= i < |s| ==> !('A' <= Lower(s)[i] <= 'Z')
    ensures Lower(Lower(s)) == Lower(s)
  {
  }

  predicate IsDigit(c: char)
  {
    '0' <= c <= '9'
  }

  /** str.isdigit() on ASCII: non-empty and made of decimal digits. */
  predicate IsDigits(s: string)
  {
    s != [] && forall i :: 0 <= i < |s| ==> IsDigit(s[i])
  }

  /** int(s) for a string of decimal digits. */
  function DigitsValue(s: string): (n: nat)
    requires forall i :: 0 <= i < |s| ==> IsDigit(s[i])
  {
    if s == [] then 0
    else
      var last := s[|s| - 1];
      assert IsDigit(last);
      DigitsValue(s[..|s| - 1]) * 10 + (last as int - '0' as int)
  }

  /** str(n) for a natural number. */
  function Decimal(n: nat): (s: string)
    ensures IsDigits(s)
  {
    if n < 10 then [('0' as int + n) as char]
    else Decimal(n / 10) + [('0' as int + n % 10) as char]
  }

  /** int(str(n)) == n */
  lemma {:induction false} DecimalRoundTrip(n: nat)
    ensures DigitsValue(Decimal(n)) == n
  {
    var s := Decimal(n);
    if n >= 10 {
      DecimalRoundTrip(n / 10);
      assert s[..|s| - 1] == Decimal(n / 10);
    }
  }
}
