/**
 * String helpers with Python's meaning: whitespace as `str.isspace()` and
 * the `\s` class of `re` see it, `strip`/`rstrip`, `split` on one character,
 * `join`, and literal substring search and removal.
 */
module Text {

  datatype Option<T> = None | Some(value: T)

  /** Python's Unicode whitespace (`str.isspace()`, and `\s` in a `str` regex). */
  predicate IsSpace(c: char) {
    var n := c as int;
    (0x09 <= n <= 0x0D) || (0x1C <= n <= 0x20) || n == 0x85 || n == 0xA0 ||
    n == 0x1680 || (0x2000 <= n <= 0x200A) || n == 0x2028 || n == 0x2029 ||
    n == 0x202F || n == 0x205F || n == 0x3000
  }

  /** The `[0-9]` part of `\d`. */
  predicate IsDigit(c: char) {
    '0' <= c <= '9'
  }

  predicate AllSpace(s: string) {
    forall k :: 0 <= k < |s| ==> IsSpace(s[k])
  }

  /** `s.lstrip()`: what is left once the leading whitespace is gone (see `LStripSpec`). */
  function LStrip(s: string): (r: string)
    ensures |r| <= |s|
  {
    if s != [] && IsSpace(s[0]) then LStrip(s[1..]) else s
  }

  /** lstrip removes a run of whitespace from the front and stops at a non-space. */
  lemma {:induction false} LStripSpec(s: string)
    ensures LStrip(s) == s[|s| - |LStrip(s)|..]
    ensures AllSpace(s[..|s| - |LStrip(s)|])
    ensures LStrip(s) == [] || !IsSpace(LStrip(s)[0])
  {
    if s != [] && IsSpace(s[0]) {
      var t := s[1..];
      LStripSpec(t);
      var r := LStrip(s);
      assert r == LStrip(t);
      assert t[|t| - |r|..] == s[|s| - |r|..];
      forall k | 0 <= k < |s| - |r| ensures IsSpace(s[k]) {
        if k > 0 {
          assert s[k] == t[..|t| - |r|][k - 1];
        }
      }
    } else {
      assert s[0..] == s;
    }
  }

  /** `s.rstrip()`: what is left once the trailing whitespace is gone (see `RStripSpec`). */
  function RStrip(s: string): (r: string)
    ensures |r| <= |s|
  {
    if s != [] && IsSpace(s[|s| - 1]) then RStrip(s[..|s| - 1]) else s
  }

  /** rstrip removes a run of whitespace from the end and stops at a non-space. */
  lemma {:induction false} RStripSpec(s: string)
    ensures RStrip(s) == s[..|RStrip(s)|]
    ensures AllSpace(s[|RStrip(s)|..])
    ensures RStrip(s) == [] || !IsSpace(RStrip(s)[|RStrip(s)| - 1])
  {
    if s != [] && IsSpace(s[|s| - 1]) {
      var t := s[..|s| - 1];
      RStripSpec(t);
      var r := RStrip(s);
      assert r == RStrip(t);
      assert t[..|r|] == s[..|r|];
      forall k | |r| <= k < |s| ensures IsSpace(s[k]) {
        if k < |s| - 1 {
          assert s[k] == t[|r|..][k - |r|];
        }
      }
    } else {
      assert s[..|s|] == s;
    }
  }

  /** Neither end of s is whitespace. */
  predicate Trimmed(s: string) {
    s == [] || (!IsSpace(s[0]) && !IsSpace(s[|s| - 1]))
  }

  /** `s.strip()`: the input with its leading and trailing whitespace removed. */
  function Strip(s: string): (r: string)
    ensures |r| <= |s|
  {
    RStrip(LStrip(s))
  }

  /** The stripped text is a piece of the input with no whitespace at either end. */
  lemma StripSpec(s: string)
    ensures Trimmed(Strip(s))
    ensures var a := |s| - |LStrip(s)|; Strip(s) == s[a..a + |Strip(s)|]
  {
    var l := LStrip(s);
    LStripSpec(s);
    RStripSpec(l);
    var r := Strip(s);
    if r != [] {
      assert r[0] == l[0];
    }
  }

  /** Stripping a trimmed text changes nothing. */
  lemma StripTrimmed(s: string)
    requires Trimmed(s)
    ensures Strip(s) == s
  {
  }

  lemma StripOfRStrip(s: string)
    ensures Strip(RStrip(s)) == Strip(s)
  {
    if s != [] && IsSpace(s[|s| - 1]) {
      assert s[..|s| - 1] == s[..|s| - 1];
      StripOfRStrip(s[..|s| - 1]);
      RStripDrop(s);
    }
  }

  /** A trailing space is dropped by both strips, so removing it first changes nothing. */
  lemma RStripDrop(s: string)
    requires s != [] && IsSpace(s[|s| - 1])
    ensures Strip(s) == Strip(s[..|s| - 1])
  {
    var t := s[..|s| - 1];
    if AllSpace(s) {
      AllSpaceLStrip(s);
      AllSpaceLStrip(t);
    } else {
      var k :| 0 <= k < |s| && !IsSpace(s[k]);
      LStripKeepsLast(s, k);
      assert LStrip(s) == LStrip(t) + [s[|s| - 1]];
    }
  }

  lemma AllSpaceLStrip(s: string)
    ensures AllSpace(s) <==> LStrip(s) == []
  {
    if s != [] && IsSpace(s[0]) {
      AllSpaceLStrip(s[1..]);
      if LStrip(s) == [] {
        forall k | 0 <= k < |s| ensures IsSpace(s[k]) {
          if k > 0 { assert s[k] == s[1..][k - 1]; }
        }
      }
    }
  }

  /** When a non-space sits at k, lstrip stops at or before k, so the last character survives it. */
  lemma {:induction false} LStripKeepsLast(s: string, k: int)
    requires 0 <= k < |s| && !IsSpace(s[k])
    ensures LStrip(s[..|s| - 1]) + [s[|s| - 1]] == LStrip(s)
  {
    var t := s[..|s| - 1];
    if IsSpace(s[0]) {
      assert k >= 1;
      var u := s[1..];
      assert u[k - 1] == s[k];
      LStripKeepsLast(u, k - 1);
      assert u[..|u| - 1] == t[1..];
      assert t[0] == s[0];
      assert LStrip(t) == LStrip(t[1..]);
      assert LStrip(s) == LStrip(u);
    } else {
      if t != [] {
        assert t[0] == s[0];
      }
      assert LStrip(t) == t;
      assert t + [s[|s| - 1]] == s;
    }
  }

  /** Python's `sep.join(pieces)`. */
  function Join(pieces: seq<string>, sep: string): string {
    if pieces == [] then []
    else if |pieces| == 1 then pieces[0]
    else pieces[0] + sep + Join(pieces[1..], sep)
  }

  /** The index of the first occurrence of character c at or after i. */
  function FindChar(s: string, c: char, i: nat): (r: Option<nat>)
    requires i <= |s|
    decreases |s| - i
    ensures r.Some? ==> i <= r.value < |s|
  {
    if i == |s| then None
    else if s[i] == c then Some(i)
    else FindChar(s, c, i + 1)
  }

  /** FindChar finds the first c at or after i, and finds none only when there is none. */
  lemma {:induction false} FindCharSpec(s: string, c: char, i: nat)
    requires i <= |s|
    decreases |s| - i
    ensures var r := FindChar(s, c, i); r.Some? ==> s[r.value] == c && c !in s[i..r.value]
    ensures FindChar(s, c, i).None? <==> c !in s[i..]
  {
    if i < |s| && s[i] != c {
      FindCharSpec(s, c, i + 1);
      var r := FindChar(s, c, i + 1);
      assert s[i..] == [s[i]] + s[i + 1..];
      if r.Some? {
        assert s[i..r.value] == [s[i]] + s[i + 1..r.value];
      }
    }
  }

  /** Python's `s.split(sep)`: the pieces between occurrences of sep. */
  function Split(s: string, sep: char): (pieces: seq<string>)
    decreases |s|
    ensures |pieces| >= 1
  {
    match FindChar(s, sep, 0)
    case None => [s]
    case Some(i) => [s[..i]] + Split(s[i + 1..], sep)
  }

  /** Joining a first piece to at least one more puts the separator after it. */
  lemma JoinCons(x: string, pieces: seq<string>, sep: string)
    requires |pieces| >= 1
    ensures Join([x] + pieces, sep) == x + sep + Join(pieces, sep)
  {
    assert ([x] + pieces)[1..] == pieces;
  }

  /** Joining with a piece cut in two: the part before the cut ends one join, the part after starts the next. */
  lemma {:induction false} JoinMerge(a: seq<string>, x: string, y: string, b: seq<string>, sep: string)
    ensures Join(a + [x + y] + b, sep) == Join(a + [x], sep) + Join([y] + b, sep)
  {
    if a == [] {
      assert a + [x + y] + b == [x + y] + b && a + [x] == [x];
      if b != [] {
        JoinCons(x + y, b, sep);
        JoinCons(y, b, sep);
      }
    } else {
      var a' := a[1..];
      JoinMerge(a', x, y, b, sep);
      assert a + [x + y] + b == [a[0]] + (a' + [x + y] + b);
      assert a + [x] == [a[0]] + (a' + [x]);
      JoinCons(a[0], a' + [x + y] + b, sep);
      JoinCons(a[0], a' + [x], sep);
    }
  }

  /** Joining the pieces of a split with the separator gives the text back. */
  lemma {:induction false} SplitSpec(s: string, sep: char)
    decreases |s|
    ensures Join(Split(s, sep), [sep]) == s
  {
    FindCharSpec(s, sep, 0);
    match FindChar(s, sep, 0)
    case None =>
      assert Split(s, sep) == [s];
    case Some(i) =>
      var rest := Split(s[i + 1..], sep);
      SplitSpec(s[i + 1..], sep);
      assert Split(s, sep) == [s[..i]] + rest;
      JoinCons(s[..i], rest, [sep]);
      assert s == s[..i] + [sep] + s[i + 1..];
  }

  /** No piece of a split contains the separator. */
  lemma {:induction false} SplitNoSep(s: string, sep: char, k: int)
    requires 0 <= k < |Split(s, sep)|
    ensures sep !in Split(s, sep)[k]
    decreases |s|
  {
    FindCharSpec(s, sep, 0);
    match FindChar(s, sep, 0)
    case None =>
      assert s[0..] == s;
    case Some(i) =>
      var rest := Split(s[i + 1..], sep);
      assert Split(s, sep) == [s[..i]] + rest;
      if k == 0 {
        assert s[..i] == s[0..i];
      } else {
        SplitNoSep(s[i + 1..], sep, k - 1);
      }
  }


  /** FindChar stops at the first occurrence. */
  lemma {:induction false} FindCharAt(s: string, c: char, i: nat, j: nat)
    requires i <= j < |s| && s[j] == c && c !in s[i..j]
    ensures FindChar(s, c, i) == Some(j)
    decreases j - i
  {
    if i < j {
      assert s[i] == s[i..j][0];
      assert s[i + 1..j] == s[i..j][1..];
      FindCharAt(s, c, i + 1, j);
    }
  }

  /** A sequence of pieces none of which contains sep is recovered by splitting their join. */
  lemma {:induction false} SplitJoin(pieces: seq<string>, sep: char)
    requires |pieces| >= 1
    requires forall k :: 0 <= k < |pieces| ==> sep !in pieces[k]
    ensures Split(Join(pieces, [sep]), sep) == pieces
  {
    var s := Join(pieces, [sep]);
    if |pieces| == 1 {
      assert s[0..] == s;
      FindCharSpec(s, sep, 0);
    } else {
      var p := pieces[0];
      var rest := Join(pieces[1..], [sep]);
      assert s == p + [sep] + rest;
      assert s[0..|p|] == p;
      FindCharAt(s, sep, 0, |p|);
      assert s[|p| + 1..] == rest;
      assert s[..|p|] == p;
      SplitJoin(pieces[1..], sep);
    }
  }

  /** pat occurs in s at index i. */
  predicate OccursAt(s: string, pat: string, i: int) {
    0 <= i && i + |pat| <= |s| && s[i..i + |pat|] == pat
  }

  /** The first occurrence of pat at or after i. */
  function FindFrom(s: string, pat: string, i: nat): (r: Option<nat>)
    decreases |s| - i
    ensures r.Some? ==> i <= r.value && r.value + |pat| <= |s|
  {
    if i + |pat| > |s| then None
    else if s[i..i + |pat|] == pat then Some(i)
    else FindFrom(s, pat, i + 1)
  }

  /** FindFrom finds the first occurrence at or after i, and finds none only when there is none. */
  lemma {:induction false} FindFromSpec(s: string, pat: string, i: nat)
    decreases |s| - i
    ensures FindFrom(s, pat, i).Some? ==> OccursAt(s, pat, FindFrom(s, pat, i).value)
    ensures FindFrom(s, pat, i).Some? ==> forall j :: i <= j < FindFrom(s, pat, i).value ==> !OccursAt(s, pat, j)
    ensures FindFrom(s, pat, i).None? ==> forall j :: i <= j ==> !OccursAt(s, pat, j)
  {
    if i + |pat| <= |s| && s[i..i + |pat|] != pat {
      FindFromSpec(s, pat, i + 1);
    }
  }

  /** Python's `pat in s`. */
  predicate Contains(s: string, pat: string) {
    FindFrom(s, pat, 0).Some?
  }

  lemma ContainsAt(s: string, pat: string, i: int)
    requires OccursAt(s, pat, i)
    ensures Contains(s, pat)
  {
    FindFromSpec(s, pat, 0);
  }

  lemma NotContains(s: string, pat: string, i: int)
    requires !Contains(s, pat)
    ensures !OccursAt(s, pat, i)
  {
    FindFromSpec(s, pat, 0);
  }

  lemma SliceOfSlice(s: string, lo: int, hi: int, i: int, j: int)
    requires 0 <= lo <= hi <= |s| && 0 <= i <= j <= hi - lo
    ensures s[lo..hi][i..j] == s[lo + i..lo + j]
  {
    var a, b := s[lo..hi][i..j], s[lo + i..lo + j];
    forall k | 0 <= k < j - i ensures a[k] == b[k] { }
  }

  /** FindFrom finds the first occurrence at or after i. */
  lemma {:induction false} FindFromFirst(s: string, pat: string, i: nat, j: nat)
    requires i <= j && OccursAt(s, pat, j)
    requires forall k :: i <= k < j ==> !OccursAt(s, pat, k)
    ensures FindFrom(s, pat, i) == Some(j)
    decreases j - i
  {
    if i < j {
      assert !OccursAt(s, pat, i);
      FindFromFirst(s, pat, i + 1, j);
    } else {
      assert s[i..i + |pat|] == pat;
    }
  }

  /** An occurrence inside a slice is an occurrence in the whole string. */
  lemma OccursInSlice(s: string, pat: string, lo: int, hi: int, i: int)
    requires 0 <= lo <= hi <= |s|
    requires OccursAt(s[lo..hi], pat, i)
    ensures OccursAt(s, pat, lo + i)
  {
    var a, b := s[lo..hi][i..i + |pat|], s[lo + i..lo + i + |pat|];
    forall k | 0 <= k < |pat| ensures a[k] == b[k] { }
    assert a == b;
  }

  /** A prefix that ends before every occurrence of pat does not contain it. */
  lemma PrefixLacks(s: string, pat: string, p: nat)
    requires |pat| > 0 && p <= |s| && forall j :: 0 <= j < p ==> !OccursAt(s, pat, j)
    ensures !Contains(s[..p], pat)
  {
    assert s[..p] == s[0..p];
    FindFromSpec(s[..p], pat, 0);
    if Contains(s[..p], pat) {
      OccursInSlice(s, pat, 0, p, FindFrom(s[..p], pat, 0).value);
    }
  }

  /**
   * Python's `re.sub(pat, '', s)` for a literal pattern: occurrences are
   * removed left to right without overlapping.
   */
  function RemoveAll(s: string, pat: string): string
    requires |pat| > 0
    decreases |s|
  {
    if |s| < |pat| then s
    else if s[..|pat|] == pat then RemoveAll(s[|pat|..], pat)
    else [s[0]] + RemoveAll(s[1..], pat)
  }

  /** A text that does not contain the pattern comes back unchanged. */
  lemma {:induction false} RemoveAllAbsent(s: string, pat: string)
    requires |pat| > 0 && !Contains(s, pat)
    ensures RemoveAll(s, pat) == s
  {
    if |s| >= |pat| {
      NotContains(s, pat, 0);
      assert s[0..|pat|] == s[..|pat|];
      forall j ensures !OccursAt(s[1..], pat, j) {
        NotContains(s, pat, 1 + j);
        if 0 <= j && j + |pat| <= |s| - 1 {
          assert s[1..][j..j + |pat|] == s[1 + j..1 + j + |pat|];
        }
      }
      FindFromSpec(s[1..], pat, 0);
      RemoveAllAbsent(s[1..], pat);
    }
  }

  /** A suffix cut at four points is the concatenation of its pieces. */
  lemma SliceParts(s: string, p: int, a: int, b: int, c: int, d: int)
    requires 0 <= p <= a <= b <= c <= d <= |s|
    ensures s[p..] == s[p..a] + (s[a..b] + s[b..c] + s[c..d]) + s[d..]
  {
    assert s[a..d] == s[a..b] + s[b..c] + s[c..d];
    assert s[p..] == s[p..a] + s[a..d] + s[d..];
  }

  lemma Assoc<T>(a: seq<T>, b: seq<T>, c: seq<T>)
    ensures a + (b + c) == a + b + c
  {
  }

  lemma Regroup<T>(a: seq<T>, b: seq<T>, c: seq<T>, d: seq<T>)
    ensures a + (b + c + d) == a + b + c + d
  {
  }

  lemma AppendEmpty<T>(a: seq<T>)
    ensures a + [] == a && [] + a == a
  {
  }

  /** Python's `[f(x) for x in s]`. */
  function Map<A, B>(f: A -> B, s: seq<A>): (r: seq<B>)
    ensures |r| == |s|
  {
    if s == [] then [] else Map(f, s[..|s| - 1]) + [f(s[|s| - 1])]
  }

  lemma {:induction false} MapAppend<A, B>(f: A -> B, a: seq<A>, b: seq<A>)
    ensures Map(f, a + b) == Map(f, a) + Map(f, b)
  {
    if b == [] {
      assert a + b == a;
    } else {
      var c, x := b[..|b| - 1], b[|b| - 1];
      MapAppend(f, a, c);
      var ab := a + b;
      assert ab[..|ab| - 1] == a + c && ab[|ab| - 1] == x;
      assert Map(f, ab) == Map(f, a + c) + [f(x)];
      assert Map(f, b) == Map(f, c) + [f(x)];
    }
  }

  lemma MapSnoc<A, B>(f: A -> B, s: seq<A>, x: A)
    ensures Map(f, s + [x]) == Map(f, s) + [f(x)]
  {
    assert (s + [x])[..|s|] == s;
  }
}
