/**
 * The few Python string operations the loader scripts rely on, written out over
 * `seq<char>`: `str.isspace`, `str.strip`, `str.startswith`, `str.split('\n')`,
 * `re.sub(r'--.*$', '', line)` on one line, `s[:n]` truncation, and `int(float(x))`.
 */
module PyStr {

  /** Python's `str.isspace()` for a single character (ASCII and Unicode white space). */
  predicate IsSpace(c: char) {
    c == ' ' || ('\t' <= c <= '\r') || ('\U{1C}' <= c <= '\U{1F}')
    || c == '\U{85}' || c == '\U{A0}' || c == '\U{1680}'
    || ('\U{2000}' <= c <= '\U{200A}') || c == '\U{2028}' || c == '\U{2029}'
    || c == '\U{202F}' || c == '\U{205F}' || c == '\U{3000}'
  }

  /** `s.lstrip()`: `s` from its first non-space character on. */
  function TrimStart(s: string): (r: string)
    ensures |r| <= |s|
    ensures r == [] || !IsSpace(r[0])
  {
    if s == [] || !IsSpace(s[0]) then s else TrimStart(s[1..])
  }

  /** `lstrip()` removes exactly the leading white space: it returns a suffix, after white space only. */
  lemma {:induction false} TrimStartSuffix(s: string)
    ensures TrimStart(s) == s[|s| - |TrimStart(s)|..]
    ensures forall k :: 0 <= k < |s| - |TrimStart(s)| ==> IsSpace(s[k])
  {
    if s != [] && IsSpace(s[0]) {
      TrimStartSuffix(s[1..]);
    }
  }

  /** `s.rstrip()`: `s` up to its last non-space character. */
  function TrimEnd(s: string): (r: string)
    ensures |r| <= |s|
    ensures r == [] || !IsSpace(r[|r| - 1])
  {
    if s == [] || !IsSpace(s[|s| - 1]) then s else TrimEnd(s[..|s| - 1])
  }

  /** `rstrip()` removes exactly the trailing white space: it returns a prefix, before white space only. */
  lemma {:induction false} TrimEndPrefix(s: string)
    ensures TrimEnd(s) == s[..|TrimEnd(s)|]
    ensures forall k :: |TrimEnd(s)| <= k < |s| ==> IsSpace(s[k])
  {
    if s != [] && IsSpace(s[|s| - 1]) {
      TrimEndPrefix(s[..|s| - 1]);
    }
  }

  /** `s.strip()`: `s` without its leading and trailing white space. */
  function Strip(s: string): (r: string)
    ensures |r| <= |s|
    ensures r == [] || (!IsSpace(r[0]) && !IsSpace(r[|r| - 1]))
  {
    var t := TrimStart(s);
    var r := TrimEnd(t);
    TrimEndPrefix(t);
    assert r == [] || r[0] == t[0];
    r
  }

  /** Where `strip()` cuts: the characters before `Lead(s)` and after the result are white space. */
  function Lead(s: string): nat {
    |s| - |TrimStart(s)|
  }

  /**
   * `strip()` returns the slice of `s` that starts at `Lead(s)`; everything before and
   * everything after that slice is white space.
   */
  lemma StripSlice(s: string)
    ensures Lead(s) + |Strip(s)| <= |s| && Strip(s) == s[Lead(s)..Lead(s) + |Strip(s)|]
    ensures forall k :: 0 <= k < Lead(s) ==> IsSpace(s[k])
    ensures forall k :: Lead(s) + |Strip(s)| <= k < |s| ==> IsSpace(s[k])
  {
    TrimStartSuffix(s);
    TrimEndPrefix(TrimStart(s));
  }

  /** A character that is not white space survives `strip()`, at its shifted position. */
  lemma StripKeeps(s: string, p: nat)
    requires p < |s| && !IsSpace(s[p])
    ensures Lead(s) <= p < Lead(s) + |Strip(s)| && Strip(s)[p - Lead(s)] == s[p]
  {
    StripSlice(s);
  }

  /** `strip()` yields the empty string exactly when every character is white space. */
  lemma StripEmptyIffBlank(s: string)
    ensures Strip(s) == [] <==> forall k :: 0 <= k < |s| ==> IsSpace(s[k])
  {
    StripSlice(s);
    if Strip(s) != [] {
      assert !IsSpace(s[Lead(s)]);
    }
  }

  /** `s.startswith(p)`. */
  predicate StartsWith(s: string, p: string) {
    |p| <= |s| && s[..|p|] == p
  }

  /** A `--` starts at index `i` of `s`. */
  predicate DashAt(s: string, i: int) {
    0 <= i < |s| - 1 && s[i] == '-' && s[i + 1] == '-'
  }

  /** `"--" in s`. */
  predicate HasDashDash(s: string) {
    exists i :: 0 <= i < |s| && DashAt(s, i)
  }

  /**
   * `re.sub(r'--.*$', '', line)` on a line without a newline: everything from the
   * first `--` to the end of the line is removed.
   */
  function CutComment(line: string): (r: string)
    ensures r <= line
    ensures !HasDashDash(r)
  {
    if |line| < 2 then line
    else if line[0] == '-' && line[1] == '-' then ""
    else
      var rest := CutComment(line[1..]);
      assert rest == [] || rest[0] == line[1];
      DashDashCons(line[0], rest);
      [line[0]] + rest
  }

  /**
   * The cut is at the first `--`: the line is kept whole exactly when it has no `--`,
   * and otherwise what was removed starts with `--`.
   */
  lemma {:induction false} CutAtFirstDashes(line: string)
    ensures CutComment(line) == line <==> !HasDashDash(line)
    ensures CutComment(line) != line ==> StartsWith(line[|CutComment(line)|..], "--")
  {
    if |line| < 2 {
      assert !DashAt(line, 0);
    } else if line[0] == '-' && line[1] == '-' {
      assert DashAt(line, 0);
    } else {
      CutAtFirstDashes(line[1..]);
      DashDashCons(line[0], line[1..]);
      assert [line[0]] + line[1..] == line;
      var r := CutComment(line);
      assert r[1..] == CutComment(line[1..]);
      assert line[|r|..] == line[1..][|r| - 1..];
    }
  }

  /** A `--` in `[c] + s` is either at its start or inside `s`. */
  lemma DashDashCons(c: char, s: string)
    ensures HasDashDash([c] + s) <==> (c == '-' && s != [] && s[0] == '-') || HasDashDash(s)
  {
    var t := [c] + s;
    if HasDashDash(t) && !(c == '-' && s != [] && s[0] == '-') {
      var i :| 0 <= i < |t| && DashAt(t, i);
      assert i + 1 < |t| && t[0] == c && t[1] == s[0];
      assert i > 0;
      assert t[i] == s[i - 1] && t[i + 1] == s[i];
      assert DashAt(s, i - 1);
    }
    if HasDashDash(s) {
      var i :| 0 <= i < |s| && DashAt(s, i);
      assert i + 1 < |s|;
      assert t[i + 1] == s[i] && t[i + 2] == s[i + 1];
      assert DashAt(t, i + 1);
    }
    if c == '-' && s != [] && s[0] == '-' {
      assert DashAt(t, 0);
    }
  }

  /** `s.split('\n')`: the pieces of `s` between newline characters (always at least one). */
  function SplitLines(s: string): (lines: seq<string>)
    ensures |lines| >= 1
    ensures forall l <- lines :: '\n' !in l
  {
    if s == [] then [""]
    else
      var rest := SplitLines(s[1..]);
      if s[0] == '\n' then [""] + rest
      else [[s[0]] + rest[0]] + rest[1..]
  }

  /** `'\n'.join(lines)`. */
  function JoinLines(lines: seq<string>): string
    requires |lines| >= 1
  {
    if |lines| == 1 then lines[0] else lines[0] + "\n" + JoinLines(lines[1..])
  }

  /** Joining the pieces of `split('\n')` with newlines gives back the text. */
  lemma {:induction false} JoinSplitLines(s: string)
    ensures JoinLines(SplitLines(s)) == s
  {
    if s != [] {
      var rest := SplitLines(s[1..]);
      JoinSplitLines(s[1..]);
      if s[0] == '\n' {
        assert SplitLines(s) == [""] + rest;
        assert JoinLines([""] + rest) == "" + "\n" + JoinLines(rest);
      } else {
        var lines := [[s[0]] + rest[0]] + rest[1..];
        if |rest| == 1 {
          assert JoinLines(lines) == [s[0]] + rest[0];
        } else {
          assert JoinLines(rest) == rest[0] + "\n" + JoinLines(rest[1..]);
          assert lines[1..] == rest[1..];
          assert JoinLines(lines) == [s[0]] + rest[0] + "\n" + JoinLines(rest[1..]);
        }
      }
    }
  }

  /** Splitting newline-free lines joined by newlines gives back the same lines. */
  lemma {:induction false} SplitJoinLines(lines: seq<string>)
    requires |lines| >= 1
    requires forall l <- lines :: '\n' !in l
    ensures SplitLines(JoinLines(lines)) == lines
  {
    if |lines| == 1 {
      SplitNoNewline(lines[0]);
    } else {
      SplitJoinLines(lines[1..]);
      SplitPrefix(lines[0], JoinLines(lines[1..]));
      assert [lines[0]] + lines[1..] == lines;
    }
  }

  /** A newline-free text is a single line. */
  lemma {:induction false} SplitNoNewline(s: string)
    requires '\n' !in s
    ensures SplitLines(s) == [s]
  {
    if s != [] {
      assert '\n' !in s[1..] by { assert forall k :: 0 <= k < |s| - 1 ==> s[1..][k] == s[k + 1]; }
      SplitNoNewline(s[1..]);
      assert s[0] != '\n' && [s[0]] + s[1..] == s;
    }
  }

  /** A newline-free prefix followed by a newline becomes the first line. */
  lemma {:induction false} SplitPrefix(l: string, rest: string)
    requires '\n' !in l
    ensures SplitLines(l + "\n" + rest) == [l] + SplitLines(rest)
  {
    if l == [] {
      assert l + "\n" + rest == "\n" + rest;
      assert ("\n" + rest)[1..] == rest;
    } else {
      assert '\n' !in l[1..] by { assert forall k :: 0 <= k < |l| - 1 ==> l[1..][k] == l[k + 1]; }
      SplitPrefix(l[1..], rest);
      assert (l + "\n" + rest)[1..] == l[1..] + "\n" + rest;
      assert [l[0]] + l[1..] == l;
    }
  }

  /** `s[:n] if len(s) > n else s`: the column-width truncation of the loaders. */
  function Truncate(s: string, n: nat): (r: string)
    ensures |r| <= n && r <= s
    ensures |s| <= n ==> r == s
  {
    if |s| > n then s[..n] else s
  }

  /** `x and x.strip()` as a condition: the text is not blank. */
  predicate NonBlank(x: string) {
    x != "" && Strip(x) != ""
  }

  /**
   * The stripped non-blank entries of a list, in list order: what the loaders keep of
   * an artist-id list or a genre list.
   */
  function StrippedNonBlank(xs: seq<string>): (r: seq<string>)
    ensures |r| <= |xs|
  {
    if xs == [] then []
    else (if NonBlank(xs[0]) then [Strip(xs[0])] else []) + StrippedNonBlank(xs[1..])
  }

  /** Filtering distributes over concatenation, so list order is kept. */
  lemma {:induction false} StrippedNonBlankAppend(a: seq<string>, b: seq<string>)
    ensures StrippedNonBlank(a + b) == StrippedNonBlank(a) + StrippedNonBlank(b)
  {
    if a != [] {
      assert (a + b)[1..] == a[1..] + b;
      StrippedNonBlankAppend(a[1..], b);
    } else {
      assert a + b == b;
    }
  }

  /**
   * The kept entries are exactly the stripped forms of the non-blank entries, and none
   * of them is blank or carries surrounding white space.
   */
  lemma {:induction false} StrippedNonBlankMembers(xs: seq<string>)
    ensures forall y <- StrippedNonBlank(xs) :: y != "" && Strip(y) == y
    ensures forall y :: y in StrippedNonBlank(xs) <==> exists x <- xs :: NonBlank(x) && Strip(x) == y
  {
    if xs != [] {
      StrippedNonBlankMembers(xs[1..]);
      if NonBlank(xs[0]) {
        StripIdempotent(xs[0]);
      }
      forall y ensures y in StrippedNonBlank(xs) <==> exists x <- xs :: NonBlank(x) && Strip(x) == y {
        if y in StrippedNonBlank(xs[1..]) {
          var x :| x in xs[1..] && NonBlank(x) && Strip(x) == y;
          assert x in xs;
        }
        if exists x <- xs :: NonBlank(x) && Strip(x) == y {
          var x :| x in xs && NonBlank(x) && Strip(x) == y;
          if x != xs[0] {
            assert x in xs[1..];
          }
        }
      }
    }
  }

  /** Stripping twice is stripping once. */
  lemma StripIdempotent(s: string)
    ensures Strip(Strip(s)) == Strip(s)
  {
    var r := Strip(s);
    if r != [] {
      assert TrimStart(r) == r;
      assert TrimEnd(r) == r;
    }
  }

  /** `int(x)` on a float: truncation toward zero (Dafny's `Floor` rounds down). */
  function TruncToInt(x: real): (n: int)
    ensures 0.0 <= x ==> 0 <= n && n as real <= x < n as real + 1.0
    ensures x < 0.0 ==> n <= 0 && x <= n as real < x + 1.0
  {
    if x >= 0.0 then x.Floor else -((-x).Floor)
  }

  /** Truncation toward zero never decreases when its argument grows. */
  lemma TruncMonotone(x: real, y: real)
    requires x <= y
    ensures TruncToInt(x) <= TruncToInt(y)
  {
  }
}
