/**
 * The per-line tests of the two block scanners: code fences, pipe-table
 * lines, horizontal rules, and the three anchored regular expressions
 *
 *     heading   ^(#{1,6})\s+(.+)$
 *     bullet    ^(\s*)([-*+])\s+(.+)$
 *     numbered  ^(\s*)(\d+\.)\s+(.+)$
 *
 * applied with `re.match` to one line of a text split on '\n', so the line
 * holds no newline. Each is written out as the match the backtracking
 * engine finds: the marker runs are greedy and can only shrink into a
 * failure, and `\s+(.+)$` leaves `.+` whatever follows the whitespace run,
 * or only the last whitespace character when nothing follows it.
 */
module LineKinds {
  import opened Text

  /** `line.strip().startswith('```')` */
  predicate IsFence(line: string) {
    "```" <= Strip(line)
  }

  /** `line.strip()[3:].strip()`: the language tag after an opening fence. */
  function FenceLanguage(line: string): (lang: string)
    ensures Trimmed(lang)
  {
    var s := Strip(line);
    var tag := if |s| >= 3 then s[3..] else [];
    StripSpec(tag);
    Strip(tag)
  }

  /** `line.strip().startswith('|')`: a line that continues a table. */
  predicate StartsPipe(line: string) {
    var s := Strip(line);
    s != [] && s[0] == '|'
  }

  /** `line.strip().startswith('|') and line.strip().endswith('|')`: a line that starts a table. */
  predicate IsTableStart(line: string) {
    var s := Strip(line);
    s != [] && s[0] == '|' && s[|s| - 1] == '|'
  }

  /** `line.strip() in ['---', '***', '___']` */
  predicate IsRule(line: string) {
    var s := Strip(line);
    s == "---" || s == "***" || s == "___"
  }

  /** `not line.strip()` */
  predicate IsBlank(line: string) {
    Strip(line) == []
  }

  /** A line of a text split on newlines. */
  predicate OneLine(s: string) {
    forall k :: 0 <= k < |s| ==> s[k] != '\n'
  }

  // ---- Character runs ----

  /** The character classes the patterns repeat: `\s`, `\d` and `#`. */
  datatype Class = Spaces | Digits | Hash

  predicate InClass(k: Class, c: char) {
    match k
    case Spaces => IsSpace(c)
    case Digits => IsDigit(c)
    case Hash => c == '#'
  }

  /** The end of the run of class k that starts at i (a greedy `k*`). */
  function Skip(s: string, i: nat, k: Class): (j: nat)
    requires i <= |s|
    decreases |s| - i
    ensures i <= j <= |s|
  {
    if i < |s| && InClass(k, s[i]) then Skip(s, i + 1, k) else i
  }

  /** The run from i to Skip is all of class k, and it cannot be extended. */
  lemma {:induction false} SkipSpec(s: string, i: nat, k: Class)
    requires i <= |s|
    decreases |s| - i
    ensures var j := Skip(s, i, k);
      (forall m :: i <= m < j ==> InClass(k, s[m])) && (j == |s| || !InClass(k, s[j]))
  {
    if i < |s| && InClass(k, s[i]) {
      SkipSpec(s, i + 1, k);
    }
  }

  /** A run of class k up to a character outside it ends there. */
  lemma {:induction false} SkipTo(s: string, i: nat, j: nat, k: Class)
    requires i <= j <= |s| && (forall m :: i <= m < j ==> InClass(k, s[m])) && (j == |s| || !InClass(k, s[j]))
    decreases j - i
    ensures Skip(s, i, k) == j
  {
    if i < j {
      SkipTo(s, i + 1, j, k);
    }
  }

  // ---- `\s+(.+)$` ----

  /**
   * Where the group of `\s+(.+)$` starts when the pattern is tried at a: after
   * the whole whitespace run when something follows it, otherwise at the
   * run's last character, which `.+` then takes; no match without whitespace
   * at a or without a second character.
   */
  function GroupStart(line: string, a: nat): (c: Option<nat>)
    requires a <= |line|
    ensures c.Some? ==> a < c.value < |line|
  {
    var q := Skip(line, a, Spaces);
    if q == a then None
    else if q < |line| then Some(q)
    else if |line| - a >= 2 then Some(|line| - 1)
    else None
  }

  /**
   * `\s+(.+)$` matches at a exactly when a whitespace character and at least
   * one more character are there; the group then follows a whitespace run,
   * and the run is as long as it can be.
   */
  lemma GroupStartSpec(line: string, a: nat)
    requires a <= |line|
    ensures GroupStart(line, a).Some? <==> a + 2 <= |line| && IsSpace(line[a])
    ensures GroupStart(line, a).Some? ==>
      var c := GroupStart(line, a).value;
      (forall m :: a <= m < c ==> IsSpace(line[m])) &&
      (!IsSpace(line[c]) || (c == |line| - 1 && forall m :: a <= m < |line| ==> IsSpace(line[m])))
  {
    SkipSpec(line, a, Spaces);
  }

  // ---- Headings ----

  /** `n` hash marks. */
  function Hashes(n: nat): (s: string)
    ensures |s| == n && forall k :: 0 <= k < n ==> s[k] == '#'
  {
    if n == 0 then [] else "#" + Hashes(n - 1)
  }

  datatype Heading = Heading(level: nat, content: string)

  /** `re.match(r'^(#{1,6})\s+(.+)$', line)`: the level is the length of group 1, the content group 2. */
  function MatchHeading(line: string): (r: Option<Heading>)
    requires OneLine(line)
    ensures r.Some? ==> 1 <= r.value.level <= 6 && r.value.content != []
  {
    var h := Skip(line, 0, Hash);
    if 1 <= h <= 6 then
      match GroupStart(line, h)
      case Some(c) => Some(Heading(h, line[c..]))
      case None => None
    else None
  }

  /**
   * A heading's level is the number of '#' that open the line, and its
   * content is the end of the line after a whitespace run. A line matches
   * exactly when it opens with one to six '#' followed by whitespace and one
   * more character; seven or more '#' never make a heading.
   */
  lemma HeadingSpec(line: string)
    requires OneLine(line)
    ensures var h := Skip(line, 0, Hash);
      MatchHeading(line).Some? <==> 1 <= h <= 6 && h + 2 <= |line| && IsSpace(line[h])
    ensures MatchHeading(line).Some? ==>
      var hd := MatchHeading(line).value; var c := |line| - |hd.content|;
      line[..hd.level] == Hashes(hd.level) && (forall m :: hd.level <= m < c ==> IsSpace(line[m])) &&
      hd.level < c && hd.content == line[c..]
  {
    var h := Skip(line, 0, Hash);
    SkipSpec(line, 0, Hash);
    GroupStartSpec(line, h);
    if 1 <= h <= 6 && GroupStart(line, h).Some? {
      assert line[..h] == Hashes(h);
    }
  }

  /** A heading written out as `#…# content` reads back as that level and content. */
  lemma HeadingOfLine(n: nat, content: string)
    requires 1 <= n <= 6 && content != [] && !IsSpace(content[0]) && OneLine(content)
    ensures MatchHeading(Hashes(n) + " " + content) == Some(Heading(n, content))
  {
    var line := Hashes(n) + " " + content;
    assert line[n] == ' ' && line[n + 1] == content[0];
    SkipTo(line, 0, n, Hash);
    SkipTo(line, n, n + 1, Spaces);
    assert line[n + 1..] == content;
  }

  // ---- List items ----

  /** A list item: its leading whitespace, its marker (`-`, `*`, `+` or `12.`) and its content. */
  datatype Item = Item(indent: string, marker: string, content: string)

  predicate BulletMark(c: char) {
    c == '-' || c == '*' || c == '+'
  }

  /** `re.match(r'^(\s*)([-*+])\s+(.+)$', line)` */
  function MatchBullet(line: string): (r: Option<Item>)
    requires OneLine(line)
    ensures r.Some? ==> |r.value.marker| == 1 && BulletMark(r.value.marker[0]) && r.value.content != []
  {
    var n := Skip(line, 0, Spaces);
    if n < |line| && BulletMark(line[n]) then
      match GroupStart(line, n + 1)
      case Some(c) => Some(Item(line[..n], line[n..n + 1], line[c..]))
      case None => None
    else None
  }

  /**
   * A bullet line is all of its leading whitespace, one marker, a whitespace
   * run and the content. A line matches exactly when, past its leading
   * whitespace, a marker is followed by whitespace and one more character.
   */
  lemma BulletSpec(line: string)
    requires OneLine(line)
    ensures var n := Skip(line, 0, Spaces);
      MatchBullet(line).Some? <==> n + 3 <= |line| && BulletMark(line[n]) && IsSpace(line[n + 1])
    ensures MatchBullet(line).Some? ==>
      var it := MatchBullet(line).value; var n := |it.indent|; var c := |line| - |it.content|;
      it.indent == line[..n] && AllSpace(it.indent) && it.marker == line[n..n + 1] &&
      n + 2 <= c && (forall m :: n + 1 <= m < c ==> IsSpace(line[m])) && it.content == line[c..]
  {
    var n := Skip(line, 0, Spaces);
    SkipSpec(line, 0, Spaces);
    if n < |line| {
      GroupStartSpec(line, n + 1);
    }
  }

  /** A bullet written out as indent, marker, a space and content reads back as those parts. */
  lemma BulletOfLine(indent: string, m: char, content: string)
    requires AllSpace(indent) && BulletMark(m) && content != [] && !IsSpace(content[0])
    requires OneLine(indent) && OneLine(content)
    ensures MatchBullet(indent + [m] + " " + content) == Some(Item(indent, [m], content))
  {
    var line := indent + [m] + " " + content;
    var n := |indent|;
    assert line[n] == m && line[n + 1] == ' ' && line[n + 2] == content[0];
    SkipTo(line, 0, n, Spaces);
    SkipTo(line, n + 1, n + 2, Spaces);
    assert line[..n] == indent && line[n..n + 1] == [m] && line[n + 2..] == content;
  }

  /** `min(len(indent) // 2, 2)`: the nesting of a bullet, two columns of indent per level. */
  function IndentLevel(indent: string): (level: nat)
    ensures level <= 2
    ensures level < 2 ==> 2 * level <= |indent| < 2 * level + 2
    ensures level == 2 ==> |indent| >= 4
  {
    var n := |indent| / 2;
    if n < 2 then n else 2
  }

  /** `re.match(r'^(\s*)(\d+\.)\s+(.+)$', line)`: the marker is group 2, the digits and the dot. */
  function MatchNumbered(line: string): (r: Option<Item>)
    requires OneLine(line)
    ensures r.Some? ==> |r.value.marker| >= 2 && r.value.marker[|r.value.marker| - 1] == '.' && r.value.content != []
  {
    var n := Skip(line, 0, Spaces);
    var a := Skip(line, n, Digits);
    if n < a < |line| && line[a] == '.' then
      match GroupStart(line, a + 1)
      case Some(c) => Some(Item(line[..n], line[n..a + 1], line[c..]))
      case None => None
    else None
  }

  /**
   * A numbered line is its leading whitespace, a run of digits and a dot, a
   * whitespace run and the content. A line matches exactly when, past the
   * leading whitespace, digits and a dot are followed by whitespace and one
   * more character.
   */
  lemma NumberedSpec(line: string)
    requires OneLine(line)
    ensures var n := Skip(line, 0, Spaces); var a := Skip(line, n, Digits);
      MatchNumbered(line).Some? <==> n < a && a + 3 <= |line| && line[a] == '.' && IsSpace(line[a + 1])
    ensures MatchNumbered(line).Some? ==>
      var it := MatchNumbered(line).value; var n := |it.indent|;
      var a := n + |it.marker|; var c := |line| - |it.content|;
      it.indent == line[..n] && AllSpace(it.indent) && it.marker == line[n..a] &&
      (forall k :: 0 <= k < |it.marker| - 1 ==> IsDigit(it.marker[k])) &&
      a + 1 <= c && (forall m :: a <= m < c ==> IsSpace(line[m])) && it.content == line[c..]
  {
    var n := Skip(line, 0, Spaces);
    SkipSpec(line, 0, Spaces);
    var a := Skip(line, n, Digits);
    SkipSpec(line, n, Digits);
    if a < |line| {
      GroupStartSpec(line, a + 1);
    }
  }

  /** A numbered item written out as indent, digits, a dot, a space and content reads back as those parts. */
  lemma NumberedOfLine(indent: string, digits: string, content: string)
    requires AllSpace(indent) && digits != [] && (forall k :: 0 <= k < |digits| ==> IsDigit(digits[k]))
    requires content != [] && !IsSpace(content[0]) && OneLine(indent) && OneLine(digits) && OneLine(content)
    ensures MatchNumbered(indent + digits + ". " + content) == Some(Item(indent, digits + ".", content))
  {
    var line := indent + digits + ". " + content;
    var n := |indent|;
    var a := n + |digits|;
    assert !IsSpace(line[n]) by { assert line[n] == digits[0]; }
    assert line[a] == '.' && line[a + 1] == ' ' && line[a + 2] == content[0];
    SkipTo(line, 0, n, Spaces);
    SkipTo(line, n, a, Digits);
    SkipTo(line, a + 1, a + 2, Spaces);
    assert line[..n] == indent && line[n..a + 1] == digits + "." && line[a + 2..] == content;
  }

  /** Bullet and numbered lines are told apart by the first character after the indent. */
  lemma ItemKindsDisjoint(line: string)
    requires OneLine(line)
    ensures !(MatchBullet(line).Some? && MatchNumbered(line).Some?)
  {
    var n := Skip(line, 0, Spaces);
    SkipSpec(line, n, Digits);
  }
}
