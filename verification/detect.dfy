/**
 * `has_markdown_formatting`: whether a streamed message shows any Markdown,
 * by trying fourteen regular expressions (in multi-line mode, `.` not
 * matching a newline) one after the other, and the pattern
 * `MessageRenderer._incremental_update` looks for in newly streamed text.
 */
module Detect {
  import opened Text
  import opened LineKinds
  import opened Scan

  // ---- The line patterns ----

  /** Where `^` matches in multi-line mode: the start of the text or just after a newline. */
  predicate LineStart(s: string, p: nat) {
    p == 0 || (p <= |s| && s[p - 1] == '\n')
  }

  /** `#{1,6}\s` tried at p: one to six hash marks, then whitespace. */
  predicate HeadingAt(s: string, p: nat)
    requires p <= |s|
  {
    var h := Skip(s, p, Hash);
    p < h <= p + 6 && h < |s| && IsSpace(s[h])
  }

  /** `\s*[-*+]\s` tried at p: optional whitespace, a bullet marker, whitespace. */
  predicate BulletAt(s: string, p: nat)
    requires p <= |s|
  {
    var q := Skip(s, p, Spaces);
    q + 1 < |s| && BulletMark(s[q]) && IsSpace(s[q + 1])
  }

  /** `\s*\d+\.\s` tried at p: optional whitespace, digits, a dot, whitespace. */
  predicate NumberAt(s: string, p: nat)
    requires p <= |s|
  {
    var q := Skip(s, p, Spaces);
    var r := Skip(s, q, Digits);
    q < r && r + 1 < |s| && s[r] == '.' && IsSpace(s[r + 1])
  }

  /** The end of the line that p is on: the next newline, or the end of the text. */
  function LineEnd(s: string, p: nat): (e: nat)
    requires p <= |s|
    ensures p <= e <= |s|
  {
    match FindChar(s, '\n', p)
    case None => |s|
    case Some(e) => e
  }

  /** `\|.+\|$` tried at p: the line from p has at least three characters and a pipe at both ends. */
  predicate TableLineAt(s: string, p: nat)
    requires p <= |s|
  {
    var e := LineEnd(s, p);
    e - p >= 3 && s[p] == '|' && s[e - 1] == '|'
  }

  // ---- What the scanners mean ----

  predicate AllIn(s: string, lo: int, hi: int, k: Class)
    requires 0 <= lo <= hi <= |s|
  {
    forall m :: lo <= m < hi ==> InClass(k, s[m])
  }

  /** `#{1,6}\s` matching at p with the hash marks running up to h. */
  predicate HeadingMatch(s: string, p: nat, h: nat) {
    p < h <= p + 6 && h < |s| && AllIn(s, p, h, Hash) && IsSpace(s[h])
  }

  /** The heading test is the regular expression: a run of one to six hash marks ending at whitespace. */
  lemma HeadingAtSpec(s: string, p: nat)
    requires p <= |s|
    ensures HeadingAt(s, p) <==> exists h: nat :: HeadingMatch(s, p, h)
  {
    var h := Skip(s, p, Hash);
    SkipSpec(s, p, Hash);
    if HeadingAt(s, p) {
      assert HeadingMatch(s, p, h);
    }
    if exists h: nat :: HeadingMatch(s, p, h) {
      var h': nat :| HeadingMatch(s, p, h');
      assert !InClass(Hash, s[h']);
      SkipTo(s, p, h', Hash);
    }
  }

  /** `\s*[-*+]\s` matching at p with the whitespace running up to the marker at q. */
  predicate BulletMatch(s: string, p: nat, q: nat) {
    p <= q && q + 1 < |s| && AllIn(s, p, q, Spaces) && BulletMark(s[q]) && IsSpace(s[q + 1])
  }

  /** The bullet test is the regular expression: a whitespace run, a marker, whitespace. */
  lemma BulletAtSpec(s: string, p: nat)
    requires p <= |s|
    ensures BulletAt(s, p) <==> exists q: nat :: BulletMatch(s, p, q)
  {
    var q := Skip(s, p, Spaces);
    if BulletAt(s, p) {
      SkipSpec(s, p, Spaces);
      assert BulletMatch(s, p, q);
    }
    if exists q: nat :: BulletMatch(s, p, q) {
      var q': nat :| BulletMatch(s, p, q');
      assert !InClass(Spaces, s[q']);
      SkipTo(s, p, q', Spaces);
    }
  }

  /** `\s*\d+\.\s` matching at p with whitespace up to q and digits from q up to the dot at r. */
  predicate NumberMatch(s: string, p: nat, q: nat, r: nat) {
    p <= q < r && r + 1 < |s| && AllIn(s, p, q, Spaces) && AllIn(s, q, r, Digits) &&
    s[r] == '.' && IsSpace(s[r + 1])
  }

  /** The number test is the regular expression: a whitespace run, a digit run, a dot, whitespace. */
  lemma NumberAtSpec(s: string, p: nat)
    requires p <= |s|
    ensures NumberAt(s, p) <==> exists q: nat, r: nat :: NumberMatch(s, p, q, r)
  {
    var q := Skip(s, p, Spaces);
    var r := Skip(s, q, Digits);
    if NumberAt(s, p) {
      SkipSpec(s, p, Spaces);
      SkipSpec(s, q, Digits);
      assert NumberMatch(s, p, q, r);
    }
    if exists q: nat, r: nat :: NumberMatch(s, p, q, r) {
      var q': nat, r': nat :| NumberMatch(s, p, q', r');
      assert !InClass(Spaces, s[q']) && !InClass(Digits, s[r']);
      SkipTo(s, p, q', Spaces);
      SkipTo(s, q', r', Digits);
    }
  }

  /** The table-line test is the regular expression: a pipe, at least one character, a pipe, then the line's end. */
  lemma TableLineAtSpec(s: string, p: nat)
    requires p <= |s|
    ensures TableLineAt(s, p) <==>
      p < |s| && s[p] == '|' &&
      exists j :: p + 2 <= j < |s| && s[j] == '|' && '\n' !in s[p..j + 1] && (j + 1 == |s| || s[j + 1] == '\n')
  {
    FindCharSpec(s, '\n', p);
    var e := LineEnd(s, p);
    assert '\n' !in s[p..e];
    if TableLineAt(s, p) {
      assert s[p..e - 1 + 1] == s[p..e];
    }
    if p < |s| && s[p] == '|' &&
      exists j :: p + 2 <= j < |s| && s[j] == '|' && '\n' !in s[p..j + 1] && (j + 1 == |s| || s[j + 1] == '\n') {
      var j :| p + 2 <= j < |s| && s[j] == '|' && '\n' !in s[p..j + 1] && (j + 1 == |s| || s[j + 1] == '\n');
      if FindChar(s, '\n', p).Some? {
        assert forall m :: p <= m <= j ==> s[m] == s[p..j + 1][m - p];
        assert e == j + 1;
      }
    }
  }

  // ---- The fourteen patterns ----

  /** The inline patterns, in the order they are tried. */
  const Emphasis: seq<Delimited> := [
    Delimited("***", "***", {'\n'}, {}, {}),
    Delimited("___", "___", {'\n'}, {}, {}),
    Delimited("**", "**", {'\n'}, {}, {}),
    Delimited("__", "__", {'\n'}, {}, {}),
    Delimited("*", "*", {'*', '\n'}, {'*', '\\'}, {'*'}),
    Delimited("_", "_", {'_', '\n'}, {'_', '\\'}, {'_'}),
    Delimited("~~", "~~", {'\n'}, {}, {}),
    Delimited("<u>", "</u>", {'\n'}, {}, {}),
    Delimited("`", "`", {'\n'}, {}, {})
  ]

  datatype Pattern = Inline(d: Delimited) | HeadingMark | BulletItem | NumberItem | FenceMark | TableLine

  const Patterns: seq<Pattern> := [
    Inline(Emphasis[0]), Inline(Emphasis[1]), Inline(Emphasis[2]), Inline(Emphasis[3]), Inline(Emphasis[4]),
    Inline(Emphasis[5]), Inline(Emphasis[6]), Inline(Emphasis[7]), Inline(Emphasis[8]),
    HeadingMark, BulletItem, NumberItem, FenceMark, TableLine
  ]

  /** `re.search(pattern, s, re.MULTILINE)` finds something. */
  predicate Found(pat: Pattern, s: string) {
    match pat
    case Inline(d) => ValidPattern(d) && Search(s, d)
    case HeadingMark => exists p :: 0 <= p <= |s| && LineStart(s, p) && HeadingAt(s, p)
    case BulletItem => exists p :: 0 <= p <= |s| && LineStart(s, p) && BulletAt(s, p)
    case NumberItem => exists p :: 0 <= p <= |s| && LineStart(s, p) && NumberAt(s, p)
    case FenceMark => Contains(s, "```")
    case TableLine => exists p :: 0 <= p <= |s| && LineStart(s, p) && TableLineAt(s, p)
  }

  /** Some pattern finds something. */
  predicate Formatted(s: string) {
    exists k :: 0 <= k < |Patterns| && Found(Patterns[k], s)
  }

  /** `has_markdown_formatting(text)`: the patterns tried in order until one finds something. */
  method HasMarkdownFormatting(text: string) returns (found: bool)
    ensures found == Formatted(text)
  {
    var k := 0;
    while k < |Patterns|
      invariant 0 <= k <= |Patterns|
      invariant forall j :: 0 <= j < k ==> !Found(Patterns[j], text)
    {
      if Found(Patterns[k], text) {
        return true;
      }
      k := k + 1;
    }
    return false;
  }

  // ---- Properties ----

  /** The characters some pattern needs. */
  predicate MarkChar(c: char) {
    c == '*' || c == '_' || c == '~' || c == '<' || c == '`' || c == '#' || c == '|' || c == '-' || c == '+' || c == '.'
  }

  lemma EmphasisNotIn(s: string, k: nat)
    requires k < |Emphasis| && forall m :: 0 <= m < |s| ==> !MarkChar(s[m])
    ensures !Search(s, Emphasis[k])
  {
    var d := Emphasis[k];
    assert MarkChar(d.open[0]);
    assert s[0..] == s;
    NoOpenNoMatch(s, [d], 0);
  }

  lemma FenceHasBacktick(s: string)
    ensures Contains(s, "```") ==> exists m :: 0 <= m < |s| && s[m] == '`'
  {
    var f := FindFrom(s, "```", 0);
    FindFromSpec(s, "```", 0);
    if f.Some? {
      var i := f.value;
      assert s[i..i + 3] == "```";
      assert s[i] == '`';
    }
  }

  /** Text without any of the marker characters is never taken for Markdown. */
  lemma PlainText(s: string)
    requires forall m :: 0 <= m < |s| ==> !MarkChar(s[m])
    ensures !Formatted(s)
  {
    forall k | 0 <= k < |Patterns| ensures !Found(Patterns[k], s) {
      if k < 9 {
        EmphasisNotIn(s, k);
      } else if k == 9 {
        forall p | 0 <= p <= |s| ensures !HeadingAt(s, p) {
          if p < |s| {
            assert Skip(s, p, Hash) == p;
          }
        }
      } else if k == 12 {
        FenceHasBacktick(s);
      } else if k == 13 {
        forall p | 0 <= p <= |s| ensures !TableLineAt(s, p) {
        }
      }
    }
  }

  /** A match found by the scanner witnesses a successful search. */
  lemma SearchFinds(s: string, d: Delimited, p: nat, q: nat)
    requires ValidPattern(d) && p <= |s| && OpensAt(s, d, p) && ClosesAt(s, d, p + |d.open|, q)
    ensures Search(s, d)
  {
    FindAllLeftmost(s, [d], 0);
    if FindAll(s, [d], 0) == [] {
      assert MatchFirst(s, [d], p).None?;
      MatchFirstSpec(s, [d], p);
      MatchAtSpec(s, d, p);
    }
  }

  /** Bold text on one line is Markdown. */
  lemma BoldFound(a: string, x: string, b: string)
    requires x != [] && '\n' !in x
    ensures Formatted(a + "**" + x + "**" + b)
  {
    var s := a + "**" + x + "**" + b;
    var d := Emphasis[2];
    var p, q := |a|, |a| + 2 + |x|;
    assert s[p..p + 2] == "**" && s[q..q + 2] == "**";
    assert s[p + 2..q] == x;
    assert forall m :: p + 2 <= m < q ==> s[m] == x[m - p - 2];
    SearchFinds(s, d, p, q);
    assert Found(Patterns[2], s);
  }

  /** A heading mark at the start of a line is Markdown. */
  lemma HeadingFound(a: string, b: string)
    ensures Formatted(a + "\n# " + b)
  {
    var s := a + "\n# " + b;
    var p := |a| + 1;
    assert s[p] == '#' && s[p + 1] == ' ' && s[p - 1] == '\n';
    SkipTo(s, p, p + 1, Hash);
    assert HeadingAt(s, p);
    assert Found(Patterns[9], s);
  }

  /** A bullet at the start of a line is Markdown. */
  lemma BulletFound(a: string, b: string)
    ensures Formatted(a + "\n- " + b)
  {
    var s := a + "\n- " + b;
    var p := |a| + 1;
    assert s[p] == '-' && s[p + 1] == ' ' && s[p - 1] == '\n';
    SkipTo(s, p, p, Spaces);
    assert BulletAt(s, p);
    assert Found(Patterns[10], s);
  }

  /** A code fence anywhere is Markdown. */
  lemma FenceFound(a: string, b: string)
    ensures Formatted(a + "```" + b)
  {
    var s := a + "```" + b;
    assert OccursAt(s, "```", |a|);
    ContainsAt(s, "```", |a|);
    assert Found(Patterns[12], s);
  }

  // ---- The streaming trigger ----

  /**
   * `\`\`\`|\n#{1,6}\s|\n\s*[-*+]\s|\n\s*\d+\.\s|\n\|` searched in newly
   * streamed text: a fence anywhere, or a newline followed by a heading
   * mark, a list marker or a pipe.
   */
  predicate Trigger(t: string) {
    Contains(t, "```") ||
    exists k :: 0 <= k < |t| && t[k] == '\n' &&
      (HeadingAt(t, k + 1) || BulletAt(t, k + 1) || NumberAt(t, k + 1) || (k + 1 < |t| && t[k + 1] == '|'))
  }

  lemma {:induction false} SkipShift(pre: string, t: string, i: nat, k: Class)
    requires i <= |t|
    decreases |t| - i
    ensures Skip(pre + t, |pre| + i, k) == |pre| + Skip(t, i, k)
  {
    var s := pre + t;
    if i < |t| {
      assert s[|pre| + i] == t[i];
      if InClass(k, t[i]) {
        SkipShift(pre, t, i + 1, k);
      }
    }
  }

  /** The line patterns read the same after any prefix. */
  lemma LinePatternsShift(pre: string, t: string, p: nat)
    requires p <= |t|
    ensures HeadingAt(pre + t, |pre| + p) == HeadingAt(t, p)
    ensures BulletAt(pre + t, |pre| + p) == BulletAt(t, p)
    ensures NumberAt(pre + t, |pre| + p) == NumberAt(t, p)
  {
    var s := pre + t;
    SkipShift(pre, t, p, Hash);
    SkipShift(pre, t, p, Spaces);
    var q := Skip(t, p, Spaces);
    SkipShift(pre, t, q, Digits);
    assert forall m :: 0 <= m < |t| ==> s[|pre| + m] == t[m];
  }

  /**
   * A trigger other than the bare pipe makes the whole message Markdown: the
   * full render it causes is one `has_markdown_formatting` would agree with.
   */
  lemma TriggerFormatted(pre: string, t: string, k: nat)
    requires k < |t| && t[k] == '\n' && (HeadingAt(t, k + 1) || BulletAt(t, k + 1) || NumberAt(t, k + 1))
    ensures Formatted(pre + t)
  {
    var s := pre + t;
    var p := |pre| + k + 1;
    LinePatternsShift(pre, t, k + 1);
    assert s[p - 1] == t[k];
    assert LineStart(s, p);
    if HeadingAt(t, k + 1) {
      assert Found(Patterns[9], s);
    } else if BulletAt(t, k + 1) {
      assert Found(Patterns[10], s);
    } else {
      assert Found(Patterns[11], s);
    }
  }

  /** A fence in the streamed text is a fence in the message. */
  lemma FenceTriggerFormatted(pre: string, t: string)
    requires Contains(t, "```")
    ensures Formatted(pre + t)
  {
    var i := FindFrom(t, "```", 0).value;
    FindFromSpec(t, "```", 0);
    var s := pre + t;
    assert s[|pre| + i..|pre| + i + 3] == t[i..i + 3];
    ContainsAt(s, "```", |pre| + i);
    assert Found(Patterns[12], s);
  }
}
