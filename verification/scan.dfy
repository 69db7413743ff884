/**
 * The regular expressions of the inline formatter all have one shape,
 *
 *     (?<![B]) OPEN ( X+? ) CLOSE (?![A])
 *
 * with literal OPEN and CLOSE, a content class X that is "any character
 * outside a banned set" and a lazy (or, where X excludes CLOSE, equivalent
 * greedy) quantifier. This module gives that shape one scanner instead of a
 * regular-expression engine: `MatchAt` is `pattern.match(s, p)` and
 * `FindAll` is `pattern.finditer(s)`.
 */
module Scan {
  import opened Text

  datatype Delimited = Delimited(
    open: string,          // literal opening marker
    close: string,         // literal closing marker
    banned: set<char>,     // characters the group may not contain
    notBefore: set<char>,  // negative look-behind before the opening marker
    notAfter: set<char>    // negative look-ahead after the closing marker
  )

  predicate ValidPattern(d: Delimited) {
    |d.open| > 0 && |d.close| > 0
  }

  /** One match: s[start..end] is the whole match, s[groupStart..groupEnd] is group 1. */
  datatype Match = Match(start: nat, groupStart: nat, groupEnd: nat, end: nat)

  /** The opening marker and the look-behind hold at p. */
  predicate OpensAt(s: string, d: Delimited, p: int) {
    OccursAt(s, d.open, p) && (p == 0 || s[p - 1] !in d.notBefore)
  }

  /** No banned character in s[lo..hi]. */
  predicate Clean(s: string, d: Delimited, lo: int, hi: int)
    requires 0 <= lo <= hi <= |s|
  {
    forall k :: lo <= k < hi ==> s[k] !in d.banned
  }

  /** A group that starts at c may end at q: a closing marker and the look-ahead hold there. */
  predicate ClosesAt(s: string, d: Delimited, c: int, q: int) {
    0 <= c < q && OccursAt(s, d.close, q) && Clean(s, d, c, q) &&
    (q + |d.close| == |s| || s[q + |d.close|] !in d.notAfter)
  }

  /** m is what the regular expression matches at m.start: the shortest admissible group. */
  predicate IsMatch(s: string, d: Delimited, m: Match) {
    OpensAt(s, d, m.start) && m.groupStart == m.start + |d.open| &&
    ClosesAt(s, d, m.groupStart, m.groupEnd) && m.end == m.groupEnd + |d.close| &&
    forall q :: m.groupStart < q < m.groupEnd ==> !ClosesAt(s, d, m.groupStart, q)
  }

  /** The lazy group that starts at c ends at the first admissible position from q on. */
  function FindClose(s: string, d: Delimited, c: nat, q: nat): (r: Option<nat>)
    requires ValidPattern(d)
    requires c < q <= |s|
    decreases |s| - q
    ensures r.Some? ==> q <= r.value && r.value + |d.close| <= |s|
  {
    if q + |d.close| > |s| then None
    else if s[q - 1] in d.banned then None
    else if OccursAt(s, d.close, q) && (q + |d.close| == |s| || s[q + |d.close|] !in d.notAfter) then Some(q)
    else FindClose(s, d, c, q + 1)
  }

  /** FindClose finds the first admissible end from q on, and finds none only when there is none. */
  lemma {:induction false} FindCloseSpec(s: string, d: Delimited, c: nat, q: nat)
    requires ValidPattern(d)
    requires c < q <= |s| && Clean(s, d, c, q - 1)
    decreases |s| - q
    ensures var r := FindClose(s, d, c, q);
      r.Some? ==> ClosesAt(s, d, c, r.value) && forall q' :: q <= q' < r.value ==> !ClosesAt(s, d, c, q')
    ensures FindClose(s, d, c, q).None? ==> forall q' :: q <= q' ==> !ClosesAt(s, d, c, q')
  {
    if q + |d.close| > |s| {
    } else if s[q - 1] in d.banned {
      forall q' | q <= q' ensures !ClosesAt(s, d, c, q') {
        assert c <= q - 1 < q' && s[q - 1] in d.banned;
      }
    } else if OccursAt(s, d.close, q) && (q + |d.close| == |s| || s[q + |d.close|] !in d.notAfter) {
    } else {
      FindCloseSpec(s, d, c, q + 1);
    }
  }

  /** No admissible end exists for a group that starts at c. */
  ghost predicate NeverCloses(s: string, d: Delimited, c: int) {
    forall q :: !ClosesAt(s, d, c, q)
  }

  /** `pattern.match(s, p)`: the match that starts at p, if any. */
  function MatchAt(s: string, d: Delimited, p: nat): (r: Option<Match>)
    requires ValidPattern(d) && p <= |s|
    ensures r.Some? ==> r.value.start == p < r.value.groupStart < r.value.groupEnd < r.value.end <= |s|
  {
    var c := p + |d.open|;
    if !OpensAt(s, d, p) || c + 1 > |s| then None
    else match FindClose(s, d, c, c + 1)
      case None => None
      case Some(q) => Some(Match(p, c, q, q + |d.close|))
  }

  /** A match at p is exactly what the regular expression matches there; none means it cannot match there. */
  lemma MatchAtSpec(s: string, d: Delimited, p: nat)
    requires ValidPattern(d) && p <= |s|
    ensures MatchAt(s, d, p).Some? ==> IsMatch(s, d, MatchAt(s, d, p).value)
    ensures MatchAt(s, d, p).None? ==> !OpensAt(s, d, p) || NeverCloses(s, d, p + |d.open|)
  {
    var c := p + |d.open|;
    if OpensAt(s, d, p) {
      if c + 1 > |s| {
        forall q ensures !ClosesAt(s, d, c, q) {
        }
      } else {
        FindCloseSpec(s, d, c, c + 1);
        if FindClose(s, d, c, c + 1).None? {
          forall q ensures !ClosesAt(s, d, c, q) {
          }
        }
      }
    }
  }

  /** The match is its opening marker, its group and its closing marker, in that order. */
  predicate Framed(s: string, d: Delimited, m: Match) {
    m.start < m.groupStart < m.groupEnd < m.end <= |s| &&
    s[m.start..m.groupStart] == d.open && s[m.groupEnd..m.end] == d.close
  }

  lemma MatchFramed(s: string, d: Delimited, m: Match)
    requires ValidPattern(d) && IsMatch(s, d, m)
    ensures Framed(s, d, m)
  {
  }

  /** A match lies inside s and is never empty. */
  lemma MatchBounds(s: string, d: Delimited, m: Match)
    requires ValidPattern(d) && IsMatch(s, d, m)
    ensures m.start < m.groupStart < m.groupEnd < m.end <= |s|
  {
  }

  predicate AllValid(ds: seq<Delimited>) {
    forall j :: 0 <= j < |ds| ==> ValidPattern(ds[j])
  }

  /** m is a match of one of the alternatives. */
  ghost predicate MatchesSome(s: string, ds: seq<Delimited>, m: Match) {
    exists j :: 0 <= j < |ds| && IsMatch(s, ds[j], m)
  }

  /**
   * The alternation `A|B|…` tried at p: the first alternative, in order,
   * that matches there.
   */
  function MatchFirst(s: string, ds: seq<Delimited>, p: nat): (r: Option<Match>)
    requires AllValid(ds) && p <= |s|
    ensures r.Some? ==> r.value.start == p < r.value.groupStart < r.value.groupEnd < r.value.end <= |s|
  {
    if ds == [] then None
    else match MatchAt(s, ds[0], p)
      case Some(m) => Some(m)
      case None => MatchFirst(s, ds[1..], p)
  }

  /** The alternation matches at p with some alternative's match, or with none of them. */
  lemma {:induction false} MatchFirstSpec(s: string, ds: seq<Delimited>, p: nat)
    requires AllValid(ds) && p <= |s|
    ensures MatchFirst(s, ds, p).Some? ==> MatchesSome(s, ds, MatchFirst(s, ds, p).value)
    ensures MatchFirst(s, ds, p).None? ==> forall j :: 0 <= j < |ds| ==> MatchAt(s, ds[j], p).None?
  {
    if ds != [] {
      MatchAtSpec(s, ds[0], p);
      if MatchAt(s, ds[0], p).None? {
        MatchFirstSpec(s, ds[1..], p);
        forall j | 1 <= j < |ds| ensures ds[j] == ds[1..][j - 1] {
        }
        if MatchFirst(s, ds, p).Some? {
          var j :| 0 <= j < |ds[1..]| && IsMatch(s, ds[1..][j], MatchFirst(s, ds, p).value);
          assert IsMatch(s, ds[j + 1], MatchFirst(s, ds, p).value);
        }
      }
    }
  }

  /** No match starts in [lo, hi). */
  predicate NoMatchIn(s: string, ds: seq<Delimited>, lo: int, hi: int)
    requires AllValid(ds) && 0 <= lo
  {
    forall k :: lo <= k < hi && k <= |s| ==> MatchFirst(s, ds, k).None?
  }

  /**
   * `pattern.finditer(s)` from p on, for the alternation of ds: each match is
   * the leftmost one that starts at or after the end of the previous one
   * (see `FindAllLeftmost`).
   */
  function FindAll(s: string, ds: seq<Delimited>, p: nat): (r: seq<Match>)
    requires AllValid(ds) && p <= |s|
    decreases |s| - p
  {
    if p == |s| then []
    else match MatchFirst(s, ds, p)
      case Some(m) => [m] + FindAll(s, ds, m.end)
      case None => FindAll(s, ds, p + 1)
  }

  /** The scan from p, unfolded once: the match at p and the scan after it, or the scan from p + 1. */
  lemma FindAllStep(s: string, ds: seq<Delimited>, p: nat)
    requires AllValid(ds) && p < |s|
    ensures MatchFirst(s, ds, p).Some? ==>
      FindAll(s, ds, p) == [MatchFirst(s, ds, p).value] + FindAll(s, ds, MatchFirst(s, ds, p).value.end)
    ensures MatchFirst(s, ds, p).None? ==> FindAll(s, ds, p) == FindAll(s, ds, p + 1)
  {
  }

  /** Match i of the scan from p starts at or after p. */
  lemma {:induction false} FindAllFrom(s: string, ds: seq<Delimited>, p: nat, i: int)
    requires AllValid(ds) && p <= |s| && 0 <= i < |FindAll(s, ds, p)|
    ensures p <= FindAll(s, ds, p)[i].start
    decreases |s| - p
  {
    FindAllStep(s, ds, p);
    var all := FindAll(s, ds, p);
    var r := MatchFirst(s, ds, p);
    if r.Some? {
      var rest := FindAll(s, ds, r.value.end);
      assert all == [r.value] + rest;
      if i > 0 {
        assert all[i] == rest[i - 1];
        FindAllFrom(s, ds, r.value.end, i - 1);
      }
    } else {
      FindAllFrom(s, ds, p + 1, i);
    }
  }

  /** Match i of the scan from p is what the alternation matches where it starts. */
  lemma {:induction false} FindAllAt(s: string, ds: seq<Delimited>, p: nat, i: int)
    requires AllValid(ds) && p <= |s| && 0 <= i < |FindAll(s, ds, p)|
    ensures FindAll(s, ds, p)[i].start <= |s|
    ensures MatchFirst(s, ds, FindAll(s, ds, p)[i].start) == Some(FindAll(s, ds, p)[i])
    decreases |s| - p
  {
    FindAllStep(s, ds, p);
    var all := FindAll(s, ds, p);
    var r := MatchFirst(s, ds, p);
    if r.Some? {
      var rest := FindAll(s, ds, r.value.end);
      assert all == [r.value] + rest;
      if i > 0 {
        assert all[i] == rest[i - 1];
        FindAllAt(s, ds, r.value.end, i - 1);
      } else {
        assert all[0] == r.value;
      }
    } else {
      FindAllAt(s, ds, p + 1, i);
    }
  }

  /** Match i of the scan ends no later than match j > i starts. */
  lemma {:induction false} FindAllApart(s: string, ds: seq<Delimited>, p: nat, i: int, j: int)
    requires AllValid(ds) && p <= |s| && 0 <= i < j < |FindAll(s, ds, p)|
    ensures FindAll(s, ds, p)[i].end <= FindAll(s, ds, p)[j].start
    decreases |s| - p
  {
    FindAllStep(s, ds, p);
    var all := FindAll(s, ds, p);
    var r := MatchFirst(s, ds, p);
    if r.Some? {
      var rest := FindAll(s, ds, r.value.end);
      assert all == [r.value] + rest;
      assert all[j] == rest[j - 1];
      if i == 0 {
        assert all[0] == r.value;
        FindAllFrom(s, ds, r.value.end, j - 1);
      } else {
        assert all[i] == rest[i - 1];
        FindAllApart(s, ds, r.value.end, i - 1, j - 1);
      }
    } else {
      FindAllApart(s, ds, p + 1, i, j);
    }
  }

  /**
   * Every match found is what the alternation matches where it starts, from p
   * on, and the matches come in order without overlapping.
   */
  lemma FindAllOk(s: string, ds: seq<Delimited>, p: nat)
    requires AllValid(ds) && p <= |s|
    ensures forall i :: 0 <= i < |FindAll(s, ds, p)| ==>
      p <= FindAll(s, ds, p)[i].start <= |s| &&
      MatchFirst(s, ds, FindAll(s, ds, p)[i].start) == Some(FindAll(s, ds, p)[i])
    ensures forall i, j :: 0 <= i < j < |FindAll(s, ds, p)| ==>
      FindAll(s, ds, p)[i].end <= FindAll(s, ds, p)[j].start
  {
    forall i | 0 <= i < |FindAll(s, ds, p)|
      ensures p <= FindAll(s, ds, p)[i].start <= |s|
      ensures MatchFirst(s, ds, FindAll(s, ds, p)[i].start) == Some(FindAll(s, ds, p)[i])
    {
      FindAllFrom(s, ds, p, i);
      FindAllAt(s, ds, p, i);
    }
    forall i, j | 0 <= i < j < |FindAll(s, ds, p)|
      ensures FindAll(s, ds, p)[i].end <= FindAll(s, ds, p)[j].start
    {
      FindAllApart(s, ds, p, i, j);
    }
  }

  /** A match the single pattern d finds is framed by d's markers. */
  lemma FoundFramed(s: string, d: Delimited, m: Match)
    requires ValidPattern(d) && m.start <= |s| && MatchFirst(s, [d], m.start) == Some(m)
    ensures Framed(s, d, m)
  {
    MatchFirstSpec(s, [d], m.start);
    MatchFramed(s, d, m);
  }

  /**
   * The scan skips only positions where nothing matches: the first match found
   * is the leftmost one from p on, and the rest is the scan resumed after it.
   */
  lemma {:induction false} FindAllLeftmost(s: string, ds: seq<Delimited>, p: nat)
    requires AllValid(ds) && p <= |s|
    ensures var r := FindAll(s, ds, p);
      (r == [] ==> NoMatchIn(s, ds, p, |s| + 1)) &&
      (r != [] ==> r[0].end <= |s| && NoMatchIn(s, ds, p, r[0].start) && r[1..] == FindAll(s, ds, r[0].end))
    decreases |s| - p
  {
    var r := FindAll(s, ds, p);
    if p == |s| {
      NoMatchAtEnd(s, ds);
      assert r == [];
    } else if MatchFirst(s, ds, p).Some? {
      var m := MatchFirst(s, ds, p).value;
      assert r == [m] + FindAll(s, ds, m.end);
    } else {
      assert r == FindAll(s, ds, p + 1);
      FindAllLeftmost(s, ds, p + 1);
      FindAllOk(s, ds, p + 1);
      var hi := if r == [] then |s| + 1 else r[0].start;
      NoMatchExtend(s, ds, p, hi);
    }
  }

  lemma NoMatchAtEnd(s: string, ds: seq<Delimited>)
    requires AllValid(ds)
    ensures MatchFirst(s, ds, |s|).None?
  {
  }

  lemma NoMatchExtend(s: string, ds: seq<Delimited>, p: nat, hi: int)
    requires AllValid(ds) && p <= |s| && p < hi
    requires MatchFirst(s, ds, p).None? && NoMatchIn(s, ds, p + 1, hi)
    ensures NoMatchIn(s, ds, p, hi)
  {
  }

  /** `re.search(pattern, s)` succeeds. */
  predicate Search(s: string, d: Delimited)
    requires ValidPattern(d)
  {
    FindAll(s, [d], 0) != []
  }

  /** A match needs its opening marker's first character. */
  lemma {:induction false} NoOpenNoMatch(s: string, ds: seq<Delimited>, p: nat)
    requires AllValid(ds) && p <= |s|
    requires forall j :: 0 <= j < |ds| ==> ds[j].open[0] !in s[p..]
    ensures FindAll(s, ds, p) == []
    decreases |s| - p
  {
    if p < |s| {
      assert s[p] == s[p..][0];
      forall j | 0 <= j < |ds| ensures !OpensAt(s, ds[j], p) {
        if p + |ds[j].open| <= |s| {
          assert s[p..p + |ds[j].open|][0] == s[p];
        }
      }
      MatchFirstSpec(s, ds, p);
      assert s[p + 1..] == s[p..][1..];
      NoOpenNoMatch(s, ds, p + 1);
    }
  }
}
