/** Models of the PHP string built-ins the avatar builder relies on:
    trim() with its default character list, strtolower(), and implode()
    together with a splitting function that undoes it. */
module PhpStrings {

  /** The characters trim() strips by default: space, tab, line feed,
      carriage return, NUL and vertical tab. All are ASCII, so stripping
      them character by character is the same as stripping them byte by
      byte from the UTF-8 encoding. */
  predicate IsTrimChar(c: char) {
    c == ' ' || c == '\t' || c == '\n' || c == '\r' || c == '\0' || c == '\U{000B}'
  }

  /** ltrim(): drops the leading trim characters. */
  function TrimLeft(s: string): (r: string)
    ensures |r| <= |s| && r == s[|s| - |r|..]
    ensures forall k :: 0 <= k < |s| - |r| ==> IsTrimChar(s[k])
    ensures r == [] || !IsTrimChar(r[0])
  {
    if s != [] && IsTrimChar(s[0]) then TrimLeft(s[1..]) else s
  }

  /** rtrim(): drops the trailing trim characters. */
  function TrimRight(s: string): (r: string)
    ensures |r| <= |s| && r == s[..|r|]
    ensures forall k :: |r| <= k < |s| ==> IsTrimChar(s[k])
    ensures r == [] || !IsTrimChar(r[|r| - 1])
  {
    if s != [] && IsTrimChar(s[|s| - 1]) then TrimRight(s[..|s| - 1]) else s
  }

  /** s[i..j] is what remains of `s` once its surrounding trim characters
      are removed: everything outside the slice is a trim character and
      the slice neither starts nor ends with one. */
  ghost predicate TrimBounds(s: string, i: int, j: int) {
    && 0 <= i <= j <= |s|
    && (forall k :: 0 <= k < i ==> IsTrimChar(s[k]))
    && (forall k :: j <= k < |s| ==> IsTrimChar(s[k]))
    && (i < j ==> !IsTrimChar(s[i]) && !IsTrimChar(s[j - 1]))
  }

  /** `r` is `s` with its surrounding trim characters removed. */
  ghost predicate IsTrimmingOf(r: string, s: string) {
    exists i, j :: TrimBounds(s, i, j) && r == s[i..j]
  }

  /** A right-trimmed suffix of a left-trimmed `s`, described by the
      guarantees of TrimLeft and TrimRight, is a slice between trim
      bounds. */
  lemma TrimLeftRightBounds(s: string, l: string, r: string)
    requires |l| <= |s| && l == s[|s| - |l|..]
    requires forall k :: 0 <= k < |s| - |l| ==> IsTrimChar(s[k])
    requires l == [] || !IsTrimChar(l[0])
    requires |r| <= |l| && r == l[..|r|]
    requires forall k :: |r| <= k < |l| ==> IsTrimChar(l[k])
    requires r == [] || !IsTrimChar(r[|r| - 1])
    ensures TrimBounds(s, |s| - |l|, |s| - |l| + |r|)
    ensures r == s[|s| - |l|..|s| - |l| + |r|]
  {
    var i := |s| - |l|;
    forall k | i + |r| <= k < |s| ensures IsTrimChar(s[k]) {
      assert s[k] == l[k - i];
    }
    if r != [] {
      assert s[i] == l[0] == r[0];
      assert s[i + |r| - 1] == l[|r| - 1] == r[|r| - 1];
    }
  }

  /** trim(): drops the leading and the trailing trim characters. */
  function Trim(s: string): (r: string)
    ensures IsTrimmingOf(r, s)
  {
    var l := TrimLeft(s);
    var r := TrimRight(l);
    TrimLeftRightBounds(s, l, r);
    r
  }

  /** Two pairs of trim bounds of one string delimit the same slice. */
  lemma TrimBoundsUnique(s: string, i1: int, j1: int, i2: int, j2: int)
    requires TrimBounds(s, i1, j1) && TrimBounds(s, i2, j2)
    ensures s[i1..j1] == s[i2..j2]
  {
    if i1 < j1 { assert !IsTrimChar(s[i1]) && !IsTrimChar(s[j1 - 1]); }
    if i2 < j2 { assert !IsTrimChar(s[i2]) && !IsTrimChar(s[j2 - 1]); }
  }

  /** The trimming of a string is unique: IsTrimmingOf is an independent
      definition of what trim() computes. */
  lemma TrimmingUnique(r1: string, r2: string, s: string)
    requires IsTrimmingOf(r1, s) && IsTrimmingOf(r2, s)
    ensures r1 == r2
  {
    var i1, j1 :| TrimBounds(s, i1, j1) && r1 == s[i1..j1];
    var i2, j2 :| TrimBounds(s, i2, j2) && r2 == s[i2..j2];
    TrimBoundsUnique(s, i1, j1, i2, j2);
  }

  /** Trimming a trimmed string changes nothing. */
  lemma TrimIdempotent(s: string)
    ensures Trim(Trim(s)) == Trim(s)
  {
    var t := Trim(s);
    assert IsTrimmingOf(t, t) by {
      assert t == t[0..|t|];
    }
    TrimmingUnique(Trim(t), t, t);
  }

  /** Padding a string with trim characters shifts its trim bounds. */
  lemma PaddingShiftsTrimBounds(pre: string, s: string, post: string, i: int, j: int)
    requires forall k :: 0 <= k < |pre| ==> IsTrimChar(pre[k])
    requires forall k :: 0 <= k < |post| ==> IsTrimChar(post[k])
    requires TrimBounds(s, i, j)
    ensures TrimBounds(pre + s + post, |pre| + i, |pre| + j)
    ensures (pre + s + post)[|pre| + i..|pre| + j] == s[i..j]
  {
    var w := pre + s + post;
    forall k | 0 <= k < |w|
      ensures k < |pre| ==> w[k] == pre[k]
      ensures |pre| <= k < |pre| + |s| ==> w[k] == s[k - |pre|]
      ensures |pre| + |s| <= k ==> w[k] == post[k - |pre| - |s|]
    {
    }
  }

  /** Trim characters added around a string are stripped again: trim()
      ignores surrounding whitespace. */
  lemma TrimIgnoresPadding(pre: string, s: string, post: string)
    requires forall k :: 0 <= k < |pre| ==> IsTrimChar(pre[k])
    requires forall k :: 0 <= k < |post| ==> IsTrimChar(post[k])
    ensures Trim(pre + s + post) == Trim(s)
  {
    var t := Trim(s);
    var i, j :| TrimBounds(s, i, j) && t == s[i..j];
    PaddingShiftsTrimBounds(pre, s, post, i, j);
    TrimmingUnique(Trim(pre + s + post), t, pre + s + post);
  }

  predicate IsAsciiUpper(c: char) {
    'A' <= c <= 'Z'
  }

  /** strtolower() on one character: only the ASCII letters A to Z change. */
  function LowerChar(c: char): char {
    if IsAsciiUpper(c) then (c as int + 32) as char else c
  }

  /** strtolower(): lower-cases the ASCII letters and leaves every other
      character as it is (PHP 8 semantics, independent of the locale). */
  function Lower(s: string): (r: string)
    ensures |r| == |s|
    ensures forall k :: 0 <= k < |r| ==> !IsAsciiUpper(r[k])
    ensures forall k :: 0 <= k < |s| && !IsAsciiUpper(s[k]) ==> r[k] == s[k]
    ensures forall k :: 0 <= k < |s| && IsAsciiUpper(s[k]) ==> r[k] as int == s[k] as int + 32
  {
    seq(|s|, k requires 0 <= k < |s| => LowerChar(s[k]))
  }

  /** Lower-casing a slice is slicing the lower-cased string. */
  lemma LowerSlice(s: string, i: int, j: int)
    requires 0 <= i <= j <= |s|
    ensures Lower(s[i..j]) == Lower(s)[i..j]
  {
  }

  /** Lower-casing keeps the trim bounds of a string, because no trim
      character is a letter. */
  lemma LowerKeepsTrimBounds(s: string, i: int, j: int)
    requires TrimBounds(s, i, j)
    ensures TrimBounds(Lower(s), i, j)
  {
    var ls := Lower(s);
    forall k | 0 <= k < |s| ensures IsTrimChar(ls[k]) == IsTrimChar(s[k]) {
      assert ls[k] == LowerChar(s[k]);
    }
  }

  /** Lower-casing commutes with trimming. */
  lemma LowerTrimCommute(s: string)
    ensures Trim(Lower(s)) == Lower(Trim(s))
  {
    var t := Trim(s);
    var i, j :| TrimBounds(s, i, j) && t == s[i..j];
    LowerSlice(s, i, j);
    LowerKeepsTrimBounds(s, i, j);
    TrimmingUnique(Trim(Lower(s)), Lower(t), Lower(s));
  }

  /** A string without surrounding trim characters is its own trimming. */
  lemma TrimUnpadded(s: string)
    requires s == [] || (!IsTrimChar(s[0]) && !IsTrimChar(s[|s| - 1]))
    ensures Trim(s) == s
  {
    assert s[0..|s|] == s;
    assert TrimBounds(s, 0, |s|);
    TrimmingUnique(Trim(s), s, s);
  }

  /** A string without ASCII capitals is its own lower-casing. */
  lemma LowerOfLower(s: string)
    requires forall k :: 0 <= k < |s| ==> !IsAsciiUpper(s[k])
    ensures Lower(s) == s
  {
  }

  /** The canonical form `strtolower(trim(x))` the builder applies to
      emails, ratings and default-image names. */
  function Normalize(s: string): (r: string)
    ensures exists i, j :: TrimBounds(s, i, j) && r == Lower(s[i..j])
    ensures forall k :: 0 <= k < |r| ==> !IsAsciiUpper(r[k])
  {
    LowerOfTrimming(s);
    Lower(Trim(s))
  }

  lemma LowerOfTrimming(s: string)
    ensures exists i, j :: TrimBounds(s, i, j) && Lower(Trim(s)) == Lower(s[i..j])
  {
    assert IsTrimmingOf(Trim(s), s);
    var i, j :| TrimBounds(s, i, j) && Trim(s) == s[i..j];
  }

  /** A string without surrounding trim characters or ASCII capitals is
      already in normal form. */
  lemma NormalizeNormal(s: string)
    requires s == [] || (!IsTrimChar(s[0]) && !IsTrimChar(s[|s| - 1]))
    requires forall k :: 0 <= k < |s| ==> !IsAsciiUpper(s[k])
    ensures Normalize(s) == s
  {
    TrimUnpadded(s);
  }

  /** Normalising a normalised string changes nothing. */
  lemma NormalizeIdempotent(s: string)
    ensures Normalize(Normalize(s)) == Normalize(s)
  {
    var t := Trim(s);
    calc {
      Normalize(Normalize(s));
      Lower(Trim(Lower(t)));
      { LowerTrimCommute(t); }
      Lower(Lower(Trim(t)));
      { TrimIdempotent(s); }
      Lower(Lower(t));
    }
    assert Lower(Lower(t)) == Lower(t);
  }

  /** Two strings equal up to ASCII case normalise to the same string. */
  lemma NormalizeIgnoresCase(a: string, b: string)
    requires Lower(a) == Lower(b)
    ensures Normalize(a) == Normalize(b)
  {
    LowerTrimCommute(a);
    LowerTrimCommute(b);
  }

  /** Surrounding trim characters do not change the normal form. */
  lemma NormalizeIgnoresPadding(pre: string, s: string, post: string)
    requires forall k :: 0 <= k < |pre| ==> IsTrimChar(pre[k])
    requires forall k :: 0 <= k < |post| ==> IsTrimChar(post[k])
    ensures Normalize(pre + s + post) == Normalize(s)
  {
    TrimIgnoresPadding(pre, s, post);
  }

  /** implode(): the strings of `xs` with `sep` between neighbours. */
  function Join(xs: seq<string>, sep: string): (r: string)
    ensures |xs| == 1 ==> r == xs[0]
  {
    if |xs| == 0 then "" else if |xs| == 1 then xs[0] else xs[0] + sep + Join(xs[1..], sep)
  }

  /** The pieces of `s` between occurrences of `c` (explode() with a
      one-character delimiter). */
  function Split(s: string, c: char): (r: seq<string>)
    ensures |r| >= 1
    ensures forall k :: 0 <= k < |r| ==> c !in r[k]
  {
    if s == [] then [[]]
    else
      var rest := Split(s[1..], c);
      if s[0] == c then [[]] + rest else [[s[0]] + rest[0]] + rest[1..]
  }

  /** A string free of the delimiter is a single piece. */
  lemma {:induction false} SplitNoDelimiter(s: string, c: char)
    requires c !in s
    ensures Split(s, c) == [s]
  {
    if s != [] {
      SplitNoDelimiter(s[1..], c);
      assert [s[0]] + s[1..] == s;
    }
  }

  /** A piece free of the delimiter followed by the delimiter splits off as
      the first piece. */
  lemma {:induction false} SplitFirst(a: string, c: char, b: string)
    requires c !in a
    ensures Split(a + [c] + b, c) == [a] + Split(b, c)
  {
    if a == [] {
      assert a + [c] + b == [c] + b;
      assert ([c] + b)[1..] == b;
    } else {
      assert (a + [c] + b)[0] == a[0];
      assert (a + [c] + b)[1..] == a[1..] + [c] + b;
      SplitFirst(a[1..], c, b);
      assert [a[0]] + a[1..] == a;
    }
  }

  /** Split undoes Join when no piece holds the delimiter. */
  lemma {:induction false} SplitJoin(xs: seq<string>, c: char)
    requires |xs| >= 1
    requires forall k :: 0 <= k < |xs| ==> c !in xs[k]
    ensures Split(Join(xs, [c]), c) == xs
  {
    if |xs| == 1 {
      SplitNoDelimiter(xs[0], c);
    } else {
      SplitJoin(xs[1..], c);
      SplitFirst(xs[0], c, Join(xs[1..], [c]));
      assert [xs[0]] + xs[1..] == xs;
    }
  }
}
