/**
 * The POSIX `os.path` functions the processors use to name their output
 * files: `basename`, `splitext` and two-component `join`, plus the common
 * `processed/<stem>_<suffix><ext>` naming scheme and `str.rsplit('.', 1)[0]`.
 */
module Paths {
  import opened Strings

  /** `s.rfind(c)`: the last index holding `c`, or -1. */
  function LastIndexOf(s: string, c: char): (i: int)
    ensures -1 <= i < |s|
    ensures 0 <= i ==> s[i] == c
    ensures forall j :: i < j < |s| ==> s[j] != c
  {
    if |s| == 0 then -1
    else if s[|s| - 1] == c then |s| - 1
    else LastIndexOf(s[..|s| - 1], c)
  }

  /** The last `c` of `a + [c] + b`, when `b` holds none, is the one appended after `a`. */
  lemma LastIndexOfAfter(a: string, c: char, b: string)
    requires Lacks(b, c)
    ensures LastIndexOf(a + [c] + b, c) == |a|
  {
    var s := a + [c] + b;
    assert s[|a|] == c;
  }

  /** A string without `c` has no last `c`. */
  lemma LastIndexOfAbsent(s: string, c: char)
    requires Lacks(s, c)
    ensures LastIndexOf(s, c) == -1
  {
  }

  /** `os.path.basename(p)`: the text after the last slash. */
  function Basename(p: string): (b: string)
    ensures Lacks(b, '/')
    ensures |b| <= |p| && b == p[|p| - |b|..]
    ensures |b| < |p| ==> p[|p| - |b| - 1] == '/'
  {
    var i := LastIndexOf(p, '/');
    p[i + 1..]
  }

  /** The basename of `dir + "/" + file` is `file` when `file` holds no slash. */
  lemma BasenameOfJoined(dir: string, file: string)
    requires Lacks(file, '/')
    ensures Basename(dir + "/" + file) == file
  {
    LastIndexOfAfter(dir, '/', file);
    assert (dir + "/" + file)[|dir| + 1..] == file;
  }

  /** Every character of `s` strictly between `from` and `to` is a dot. */
  predicate DotsBetween(s: string, from: int, to: int)
    requires -1 <= from && to <= |s|
  {
    forall k :: from < k < to ==> s[k] == '.'
  }

  /** What an extension returned by `splitext` looks like: empty, or one dot and then neither dot nor slash. */
  predicate WellFormedExtension(e: string) {
    e == [] || (e[0] == '.' && Lacks(e[1..], '.') && Lacks(e, '/'))
  }

  /**
   * `os.path.splitext(p)`: splits at the last dot after the last slash,
   * unless everything between that slash and that dot is dots too (a
   * leading-dot name such as `.profile` has no extension).
   */
  function SplitExt(p: string): (parts: (string, string))
    ensures parts.0 + parts.1 == p
    ensures WellFormedExtension(parts.1)
    ensures Lacks(p, '.') ==> parts.1 == []
  {
    var sep := LastIndexOf(p, '/');
    var dot := LastIndexOf(p, '.');
    if dot > sep && !DotsBetween(p, sep, dot) then
      (p[..dot], p[dot..])
    else
      (p, [])
  }

  /**
   * Splitting `stem + "." + ext` gives back `stem` and `"." + ext` when the
   * stem has a non-dot character and no slash, and `ext` holds neither dot
   * nor slash.
   */
  lemma SplitExtOf(stem: string, ext: string, k: nat)
    requires Lacks(stem, '/') && k < |stem| && stem[k] != '.'
    requires Lacks(ext, '.') && Lacks(ext, '/')
    ensures SplitExt(stem + "." + ext) == (stem, "." + ext)
  {
    var p := stem + "." + ext;
    assert Lacks(p, '/') by {
      assert forall j :: 0 <= j < |p| ==> p[j] == (if j < |stem| then stem[j] else if j == |stem| then '.' else ext[j - |stem| - 1]);
    }
    LastIndexOfAbsent(p, '/');
    LastIndexOfAfter(stem, '.', ext);
    assert p[k] == stem[k];
    assert !DotsBetween(p, -1, |stem|);
    assert p[..|stem|] == stem;
    assert p[|stem|..] == "." + ext;
  }

  /** `os.path.join(a, b)` for two components. */
  function Join(a: string, b: string): (r: string)
    ensures |b| <= |r| && r[|r| - |b|..] == b
  {
    if StartsWith(b, "/") then b
    else if a == [] || EndsWith(a, "/") then
      assert (a + b)[|a + b| - |b|..] == b;
      a + b
    else
      assert (a + "/" + b)[|a + "/" + b| - |b|..] == b;
      a + "/" + b
  }

  /** The stem of the input's file name: `os.path.splitext(os.path.basename(p))[0]`. */
  function Stem(p: string): (s: string)
    ensures Lacks(s, '/')
  {
    var b := Basename(p);
    var parts := SplitExt(b);
    LacksConcat(parts.0, parts.1, '/');
    parts.0
  }

  /** The extension of the input's file name: `os.path.splitext(os.path.basename(p))[1]`. */
  function Extension(p: string): (e: string)
    ensures WellFormedExtension(e)
  {
    SplitExt(Basename(p)).1
  }

  /** The output directory every processor writes to. */
  const ProcessedDir: string := "processed"

  /**
   * `os.path.join("processed", f"{name}_{suffix}{ext}")` where `name` is the
   * input's stem: the join always inserts exactly one slash, because a stem
   * never starts with one.
   */
  function OutputPath(input: string, suffix: string, ext: string): (r: string)
    ensures r == ProcessedDir + "/" + (Stem(input) + "_" + suffix + ext)
  {
    var file := Stem(input) + "_" + suffix + ext;
    StemJoinsBelow(Stem(input), suffix, ext);
    JoinOfRelative(ProcessedDir, file);
    Join(ProcessedDir, file)
  }

  /** A file name made of a slash-free stem, `_` and more does not start with a slash. */
  lemma StemJoinsBelow(stem: string, suffix: string, ext: string)
    requires Lacks(stem, '/')
    ensures !StartsWith(stem + "_" + suffix + ext, "/")
  {
    var file := stem + "_" + suffix + ext;
    if |stem| > 0 {
      assert file[0] == stem[0];
    } else {
      assert file[0] == '_';
    }
  }

  /** Joining a relative name under the output directory inserts one slash. */
  lemma JoinOfRelative(dir: string, file: string)
    requires dir == ProcessedDir && !StartsWith(file, "/")
    ensures Join(dir, file) == dir + "/" + file
  {
    assert dir[|dir| - 1] == 'd';
    assert !EndsWith(dir, "/");
  }

  /**
   * Reading the produced path back: its basename is `stem_suffix.ext`, whose
   * own stem is `stem_suffix` and whose extension is `"." + ext`, whenever
   * suffix and ext hold no slash and ext holds no dot.
   */
  lemma OutputPathRoundTrip(input: string, suffix: string, ext: string)
    requires Lacks(suffix, '/') && Lacks(ext, '/') && Lacks(ext, '.')
    ensures Basename(OutputPath(input, suffix, "." + ext)) == Stem(input) + "_" + suffix + "." + ext
    ensures Stem(OutputPath(input, suffix, "." + ext)) == Stem(input) + "_" + suffix
    ensures Extension(OutputPath(input, suffix, "." + ext)) == "." + ext
  {
    FileRoundTrip(Stem(input), suffix, ext);
  }

  /** The round trip for any slash-free stem in place of the input's. */
  lemma {:induction false} FileRoundTrip(name: string, suffix: string, ext: string)
    requires Lacks(name, '/') && Lacks(suffix, '/') && Lacks(ext, '/') && Lacks(ext, '.')
    ensures var p := ProcessedDir + "/" + (name + "_" + suffix + "." + ext);
            && Basename(p) == name + "_" + suffix + "." + ext
            && Stem(p) == name + "_" + suffix
            && Extension(p) == "." + ext
  {
    var stem := name + "_" + suffix;
    var file := stem + "." + ext;
    LacksConcat(name, "_", '/');
    LacksConcat(name + "_", suffix, '/');
    LacksConcat(stem, ".", '/');
    LacksConcat(stem + ".", ext, '/');
    BasenameOfJoined(ProcessedDir, file);
    assert stem[|name|] == '_';
    SplitExtOf(stem, ext, |name|);
  }

  /** The same round trip for an extension as `splitext` returns it, dot included. */
  lemma OutputPathRoundTripWithDot(input: string, suffix: string, e: string)
    requires Lacks(suffix, '/') && e != [] && WellFormedExtension(e)
    ensures Stem(OutputPath(input, suffix, e)) == Stem(input) + "_" + suffix
    ensures Extension(OutputPath(input, suffix, e)) == e
  {
    var x := e[1..];
    assert e == "." + x;
    assert Lacks(x, '/') by {
      assert forall j :: 0 <= j < |x| ==> x[j] == e[j + 1];
    }
    OutputPathRoundTrip(input, suffix, x);
  }

  /** `s.rsplit('.', 1)[0]`: everything before the last dot, or all of `s`. */
  function BeforeLastDot(s: string): (r: string)
    ensures r <= s
    ensures Lacks(s, '.') ==> r == s
    ensures !Lacks(s, '.') ==> |r| < |s|
    ensures |r| < |s| ==> s[|r|] == '.' && Lacks(s[|r| + 1..], '.')
  {
    var i := LastIndexOf(s, '.');
    if i < 0 then s else s[..i]
  }

  /** The suffix naming a resized file: `f"resized_{w}x{h}"`. */
  function ResizeSuffix(w: nat, h: nat): (s: string)
    ensures Lacks(s, '/') && Lacks(s, '.')
  {
    var r := "resized_" + NatToString(w) + "x" + NatToString(h);
    assert forall i :: 0 <= i < |r| ==> r[i] == '_' || 'a' <= r[i] <= 'z' || IsDigit(r[i]) by {
      forall i | 0 <= i < |r|
        ensures r[i] == '_' || 'a' <= r[i] <= 'z' || IsDigit(r[i])
      {
        if i >= 8 {
          var t := NatToString(w) + "x" + NatToString(h);
          assert r[i] == t[i - 8];
          if i - 8 > |NatToString(w)| {
            assert t[i - 8] == NatToString(h)[i - 9 - |NatToString(w)|];
          }
        }
      }
    }
    r
  }

  /** The index of the first character of `s` that is not a decimal digit, or `|s|`. */
  function FirstNonDigit(s: string): (i: nat)
    ensures i <= |s|
    ensures forall j :: 0 <= j < i ==> IsDigit(s[j])
    ensures i < |s| ==> !IsDigit(s[i])
  {
    if s == [] || !IsDigit(s[0]) then 0 else 1 + FirstNonDigit(s[1..])
  }

  /** Two digit strings joined by a separator that is not a digit split back uniquely. */
  lemma {:induction false} SplitAtSeparator(a: string, b: string, c: string, d: string, sep: char)
    requires forall i :: 0 <= i < |a| ==> IsDigit(a[i])
    requires forall i :: 0 <= i < |c| ==> IsDigit(c[i])
    requires !IsDigit(sep)
    requires a + [sep] + b == c + [sep] + d
    ensures a == c && b == d
  {
    var s := a + [sep] + b;
    assert s[|a|] == sep && s[|c|] == sep;
    assert forall j :: 0 <= j < |a| ==> s[j] == a[j];
    assert forall j :: 0 <= j < |c| ==> s[j] == c[j];
    assert FirstNonDigit(s) == |a| == |c|;
    assert a == s[..|a|];
    assert c == (c + [sep] + d)[..|c|];
    assert b == s[|a| + 1..];
    assert d == (c + [sep] + d)[|c| + 1..];
  }

  /** Different output sizes give different resize suffixes, so the file name records the size. */
  lemma ResizeSuffixInjective(w1: nat, h1: nat, w2: nat, h2: nat)
    requires ResizeSuffix(w1, h1) == ResizeSuffix(w2, h2)
    ensures w1 == w2 && h1 == h2
  {
    var a, b := NatToString(w1), NatToString(h1);
    var c, d := NatToString(w2), NatToString(h2);
    assert "resized_" + a + "x" + b == "resized_" + c + "x" + d;
    assert a + "x" + b == ("resized_" + a + "x" + b)[8..];
    assert c + "x" + d == ("resized_" + c + "x" + d)[8..];
    SplitAtSeparator(a, b, c, d, 'x');
    NatToStringInjective(w1, w2);
    NatToStringInjective(h1, h2);
  }
}
