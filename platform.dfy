/** The two library behaviours the persistence layer relies on, written out: extracting a path's
    extension (`Path.GetExtension`) and breaking a file's text into lines (`File.ReadAllLines`). */
module Platform {

  // ---------------------------------------------------------------------------------------------
  // Path.GetExtension
  // ---------------------------------------------------------------------------------------------

  /** The characters that end a path segment. */
  predicate IsDirectorySeparator(c: char) {
    c == '/' || c == '\\'
  }

  /** A non-empty extension as `Path.GetExtension` returns it: a dot followed by at least one
      character, none of them a dot or a directory separator. */
  predicate IsExtensionToken(e: string) {
    |e| >= 2 && e[0] == '.' &&
    forall i :: 1 <= i < |e| ==> e[i] != '.' && !IsDirectorySeparator(e[i])
  }

  /** Nothing from position `n` to the end of `p` is a dot or a directory separator. */
  predicate NoDotOrSeparatorFrom(p: string, n: nat) {
    forall j :: n <= j < |p| ==> p[j] != '.' && !IsDirectorySeparator(p[j])
  }

  /** The backward scan of `Path.GetExtension`, having already passed the characters at `n` and
      beyond: the first dot met gives the extension (empty when the dot is the path's last
      character); a directory separator, or the start of the path, means there is none. */
  function ExtensionWithin(path: string, n: nat): string
    requires n <= |path| && NoDotOrSeparatorFrom(path, n)
    decreases n
  {
    if n == 0 then []
    else if path[n - 1] == '.' then (if n == |path| then [] else path[n - 1..])
    else if IsDirectorySeparator(path[n - 1]) then []
    else ExtensionWithin(path, n - 1)
  }

  lemma {:induction false} ExtensionWithinShape(path: string, n: nat)
    requires n <= |path| && NoDotOrSeparatorFrom(path, n)
    ensures var ext := ExtensionWithin(path, n);
            ext == [] || (IsExtensionToken(ext) && |ext| <= |path| && ext == path[|path| - |ext|..])
    decreases n
  {
    if n > 0 && path[n - 1] != '.' && !IsDirectorySeparator(path[n - 1]) {
      ExtensionWithinShape(path, n - 1);
    }
  }

  /** `Path.GetExtension(path)`: the empty string, or a suffix of `path` that is an extension token. */
  function Extension(path: string): (ext: string)
    ensures ext == [] || (IsExtensionToken(ext) && |ext| <= |path| && ext == path[|path| - |ext|..])
  {
    ExtensionWithinShape(path, |path|);
    ExtensionWithin(path, |path|)
  }

  lemma {:induction false} ExtensionWithinToken(stem: string, ext: string, n: nat)
    requires IsExtensionToken(ext)
    requires |stem| < n <= |stem + ext| && NoDotOrSeparatorFrom(stem + ext, n)
    ensures ExtensionWithin(stem + ext, n) == ext
    decreases n
  {
    var p := stem + ext;
    if n - 1 == |stem| {
      assert p[n - 1] == ext[0];
      assert p[n - 1..] == ext;
    } else {
      assert p[n - 1] == ext[n - 1 - |stem|];
      ExtensionWithinToken(stem, ext, n - 1);
    }
  }

  /** A path ending in an extension token has exactly that extension, whatever precedes it. */
  lemma ExtensionOfSuffix(stem: string, ext: string)
    requires IsExtensionToken(ext)
    ensures Extension(stem + ext) == ext
  {
    ExtensionWithinToken(stem, ext, |stem + ext|);
  }

  lemma {:induction false} ExtensionWithinNoDot(path: string, n: nat)
    requires n <= |path| && NoDotOrSeparatorFrom(path, n)
    requires forall j :: 0 <= j < n ==> path[j] != '.'
    ensures ExtensionWithin(path, n) == []
    decreases n
  {
    if n > 0 && !IsDirectorySeparator(path[n - 1]) {
      ExtensionWithinNoDot(path, n - 1);
    }
  }

  /** A path without any dot has no extension. */
  lemma ExtensionWithoutDot(path: string)
    requires forall j :: 0 <= j < |path| ==> path[j] != '.'
    ensures Extension(path) == []
  {
    ExtensionWithinNoDot(path, |path|);
  }

  lemma NoDotOrSeparatorShift(p: string, d: nat, n: nat)
    requires d <= n <= |p| && NoDotOrSeparatorFrom(p, n)
    ensures NoDotOrSeparatorFrom(p[d..], n - d)
  {
  }

  lemma {:induction false} ExtensionWithinLastSegment(p: string, d: nat, n: nat)
    requires 0 < d <= n <= |p| && IsDirectorySeparator(p[d - 1]) && NoDotOrSeparatorFrom(p, n)
    ensures NoDotOrSeparatorFrom(p[d..], n - d)
    ensures ExtensionWithin(p, n) == ExtensionWithin(p[d..], n - d)
    decreases n
  {
    NoDotOrSeparatorShift(p, d, n);
    if n > d {
      var c := p[n - 1];
      assert p[d..][n - 1 - d] == c;
      if c == '.' {
        assert p[n - 1..] == p[d..][n - 1 - d..];
      } else if !IsDirectorySeparator(c) {
        ExtensionWithinLastSegment(p, d, n - 1);
      }
    }
  }

  /** Only the last path segment decides the extension: dots in directory names do not count. */
  lemma ExtensionOfLastSegment(dir: string, sep: char, name: string)
    requires IsDirectorySeparator(sep)
    ensures Extension(dir + [sep] + name) == Extension(name)
  {
    var p := dir + [sep] + name;
    assert p[|dir|] == sep && p[|dir| + 1..] == name;
    ExtensionWithinLastSegment(p, |dir| + 1, |p|);
  }

  // ---------------------------------------------------------------------------------------------
  // File.ReadAllLines
  // ---------------------------------------------------------------------------------------------

  /** The characters that terminate a line; "\r\n" together is one terminator. */
  predicate IsLineBreak(c: char) {
    c == '\n' || c == '\r'
  }

  predicate NoLineBreak(s: string) {
    forall i :: 0 <= i < |s| ==> !IsLineBreak(s[i])
  }

  /** The position of the first line-break character of `s`, or `|s|` when there is none. */
  function LineEnd(s: string): (i: nat)
    ensures i <= |s| && NoLineBreak(s[..i])
    ensures i < |s| ==> IsLineBreak(s[i])
  {
    if s == [] || IsLineBreak(s[0]) then 0
    else
      var j := LineEnd(s[1..]);
      assert s[..1 + j] == [s[0]] + s[1..][..j];
      1 + j
  }

  /** The text after the terminator that starts at position `i`. */
  function AfterBreak(s: string, i: nat): (rest: string)
    requires i < |s| && IsLineBreak(s[i])
    ensures |rest| < |s| - i
  {
    if s[i] == '\r' && i + 1 < |s| && s[i + 1] == '\n' then s[i + 2..] else s[i + 1..]
  }

  /** `File.ReadAllLines` on text already decoded: the lines between terminators, without them;
      a final terminator does not open an empty last line, and empty text has no lines. */
  function SplitLines(s: string): (lines: seq<string>)
    ensures forall k :: 0 <= k < |lines| ==> NoLineBreak(lines[k])
    ensures |lines| == 0 <==> |s| == 0
    decreases |s|
  {
    if s == [] then []
    else
      var i := LineEnd(s);
      if i == |s| then [s] else [s[..i]] + SplitLines(AfterBreak(s, i))
  }

  lemma {:induction false} LineEndAt(a: string, rest: string)
    requires NoLineBreak(a)
    requires rest == [] || IsLineBreak(rest[0])
    ensures LineEnd(a + rest) == |a|
  {
    if a != [] {
      assert (a + rest)[0] == a[0];
      assert (a + rest)[1..] == a[1..] + rest;
      LineEndAt(a[1..], rest);
    }
  }

  lemma {:induction false} LineEndPrefix(x: string, y: string)
    requires LineEnd(x) < |x|
    ensures LineEnd(x + y) == LineEnd(x)
  {
    if !IsLineBreak(x[0]) {
      assert (x + y)[1..] == x[1..] + y;
      LineEndPrefix(x[1..], y);
    }
  }

  /** A line without terminator is read back as exactly one line. */
  lemma SplitOneLine(a: string)
    requires a != [] && NoLineBreak(a)
    ensures SplitLines(a) == [a]
  {
  }

  /** A first line followed by "\n" is read back as that line, then the lines of the rest. */
  lemma SplitFirstLine(a: string, rest: string)
    requires NoLineBreak(a)
    ensures SplitLines(a + "\n" + rest) == [a] + SplitLines(rest)
  {
    var s := a + "\n" + rest;
    assert s == a + ("\n" + rest);
    LineEndAt(a, "\n" + rest);
    assert s[..|a|] == a;
    assert AfterBreak(s, |a|) == rest;
  }

  /** Text that begins with a line break, appended after any text, never alters the lines already
      read: the lines of `x` are a prefix of the lines of `x + y`. */
  lemma {:induction false} SplitLinesPrefix(x: string, y: string)
    requires y != [] && IsLineBreak(y[0])
    ensures SplitLines(x) <= SplitLines(x + y)
    decreases |x|
  {
    if x != [] {
      var i := LineEnd(x);
      var s := x + y;
      if i == |x| {
        LineEndAt(x, y);
        assert s[..|x|] == x;
      } else {
        LineEndPrefix(x, y);
        assert s[..i] == x[..i];
        var rx := AfterBreak(x, i);
        if x[i] == '\r' && i + 1 == |x| && y[0] == '\n' {
          assert rx == [];
        } else {
          assert AfterBreak(s, i) == rx + y;
          SplitLinesPrefix(rx, y);
        }
      }
    }
  }
}
