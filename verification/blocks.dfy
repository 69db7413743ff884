/**
 * The block scan shared by `MessageRenderer._render_formatted` and
 * `markdown_to_html`. Both walk the lines of a text with an index that jumps
 * over a whole code block (from an opening fence to the next fence, or to
 * the end when none follows) or a whole table (from a line with a pipe at
 * both ends over every following line that starts with a pipe); any other
 * line is classified on its own. The two scanners differ only there: the
 * HTML converter right-strips the line first and knows horizontal rules.
 */
module Blocks {
  import opened Text
  import opened LineKinds

  /** Which scanner: the widget renderer or the HTML converter. */
  datatype Dialect = Widgets | Html

  /** What a single line is. */
  datatype Kind =
    | RuleLine
    | HeadingLine(heading: Heading)
    | BulletLine(item: Item)
    | NumberedLine(item: Item)
    | BlankLine
    | TextLine(text: string)

  /** A block with the lines it was read from. */
  datatype Block =
    | Fence(opening: string, code: seq<string>, closing: Option<string>)
    | Table(rows: seq<string>)
    | Line(line: string, kind: Kind)

  predicate AllOneLine(lines: seq<string>) {
    forall k :: 0 <= k < |lines| ==> OneLine(lines[k])
  }

  lemma OneLineRStrip(s: string)
    requires OneLine(s)
    ensures OneLine(RStrip(s))
  {
    RStripSpec(s);
  }

  /**
   * The kind of a line that neither opens a code block nor starts a table:
   * heading, bullet and numbered patterns in that order, then blank or text.
   * The HTML converter tests the right-stripped line and tests for a rule first.
   */
  function KindOf(d: Dialect, line: string): Kind
    requires OneLine(line)
  {
    OneLineRStrip(line);
    var l := if d == Html then RStrip(line) else line;
    if d == Html && IsRule(l) then RuleLine
    else match MatchHeading(l)
    case Some(h) => HeadingLine(h)
    case None =>
      match MatchBullet(l)
      case Some(it) => BulletLine(it)
      case None =>
        match MatchNumbered(l)
        case Some(it) => NumberedLine(it)
        case None => if IsBlank(l) then BlankLine else TextLine(l)
  }

  /** The index of the first fence line at or after i, or the end. */
  function FenceEnd(lines: seq<string>, i: nat): (j: nat)
    requires i <= |lines|
    decreases |lines| - i
    ensures i <= j <= |lines|
  {
    if i == |lines| || IsFence(lines[i]) then i else FenceEnd(lines, i + 1)
  }

  /** The index of the first line at or after i that does not start with a pipe, or the end. */
  function TableEnd(lines: seq<string>, i: nat): (j: nat)
    requires i <= |lines|
    decreases |lines| - i
    ensures i <= j <= |lines|
    ensures i < |lines| && StartsPipe(lines[i]) ==> i < j
  {
    if i == |lines| || !StartsPipe(lines[i]) then i else TableEnd(lines, i + 1)
  }

  /** FenceEnd stops at the first fence: none before it, and one there unless it is the end. */
  lemma {:induction false} FenceEndSpec(lines: seq<string>, i: nat)
    requires i <= |lines|
    decreases |lines| - i
    ensures var j := FenceEnd(lines, i);
      (forall k :: i <= k < j ==> !IsFence(lines[k])) && (j == |lines| || IsFence(lines[j]))
  {
    if i < |lines| && !IsFence(lines[i]) {
      FenceEndSpec(lines, i + 1);
    }
  }

  /** TableEnd stops at the first line without a leading pipe. */
  lemma {:induction false} TableEndSpec(lines: seq<string>, i: nat)
    requires i <= |lines|
    decreases |lines| - i
    ensures var j := TableEnd(lines, i);
      (forall k :: i <= k < j ==> StartsPipe(lines[k])) && (j == |lines| || !StartsPipe(lines[j]))
  {
    if i < |lines| && StartsPipe(lines[i]) {
      TableEndSpec(lines, i + 1);
    }
  }

  /** The blocks of lines[i..], in order. */
  function ScanBlocks(d: Dialect, lines: seq<string>, i: nat): seq<Block>
    requires AllOneLine(lines)
    decreases |lines| - i
  {
    if i >= |lines| then []
    else if IsFence(lines[i]) then
      var j := FenceEnd(lines, i + 1);
      var closing := if j < |lines| then Some(lines[j]) else None;
      [Fence(lines[i], lines[i + 1..j], closing)] + ScanBlocks(d, lines, j + 1)
    else if IsTableStart(lines[i]) then
      var j := TableEnd(lines, i);
      [Table(lines[i..j])] + ScanBlocks(d, lines, j)
    else [Line(lines[i], KindOf(d, lines[i]))] + ScanBlocks(d, lines, i + 1)
  }

  /** The lines of a split text hold no newline. */
  lemma SplitLines(s: string)
    ensures AllOneLine(Split(s, '\n'))
  {
    var lines := Split(s, '\n');
    forall k | 0 <= k < |lines| ensures OneLine(lines[k]) {
      SplitNoSep(s, '\n', k);
    }
  }

  /** The table-collecting loop: this line and every following one that starts with a pipe. */
  method CollectTable(lines: seq<string>, start: nat) returns (rows: seq<string>, j: nat)
    requires start <= |lines|
    ensures j == TableEnd(lines, start) && rows == lines[start..j]
  {
    rows := [];
    j := start;
    while j < |lines| && StartsPipe(lines[j])
      invariant start <= j <= |lines| && rows == lines[start..j]
      invariant TableEnd(lines, start) == TableEnd(lines, j)
      decreases |lines| - j
    {
      rows := rows + [lines[j]];
      j := j + 1;
    }
  }

  // ---- Properties ----

  /** The lines a block was read from. */
  function Source(b: Block): (ls: seq<string>)
    ensures |ls| >= 1 || b.Table?
  {
    match b
    case Fence(o, code, c) => [o] + code + (if c.Some? then [c.value] else [])
    case Table(rows) => rows
    case Line(l, _) => [l]
  }

  function Sources(bs: seq<Block>): seq<string> {
    if bs == [] then [] else Source(bs[0]) + Sources(bs[1..])
  }

  /** Where the scan goes on after the block that starts at i. */
  function NextIndex(d: Dialect, lines: seq<string>, i: nat): (n: nat)
    requires i < |lines|
    ensures i < n
  {
    if IsFence(lines[i]) then FenceEnd(lines, i + 1) + 1
    else if IsTableStart(lines[i]) then TableEnd(lines, i)
    else i + 1
  }

  lemma {:induction false} SourcesCons(b: Block, bs: seq<Block>)
    ensures Sources([b] + bs) == Source(b) + Sources(bs)
  {
    assert ([b] + bs)[1..] == bs;
  }

  /** One step of the scan: the block at i, then the scan from where it ends. */
  lemma ScanStep(d: Dialect, lines: seq<string>, i: nat)
    requires AllOneLine(lines) && i < |lines|
    ensures var bs := ScanBlocks(d, lines, i); bs != [] && bs == [bs[0]] + ScanBlocks(d, lines, NextIndex(d, lines, i))
  {
  }

  /** The block at i was read from lines i up to where the scan goes on. */
  lemma HeadSource(d: Dialect, lines: seq<string>, i: nat)
    requires AllOneLine(lines) && i < |lines|
    ensures var n := NextIndex(d, lines, i); var e := if n <= |lines| then n else |lines|;
      ScanBlocks(d, lines, i) != [] && Source(ScanBlocks(d, lines, i)[0]) == lines[i..e]
  {
    if IsFence(lines[i]) {
      var j := FenceEnd(lines, i + 1);
      var closing := if j < |lines| then Some(lines[j]) else None;
      assert ScanBlocks(d, lines, i)[0] == Fence(lines[i], lines[i + 1..j], closing);
      FenceLines(lines, i, j);
    } else if IsTableStart(lines[i]) {
      assert ScanBlocks(d, lines, i)[0] == Table(lines[i..TableEnd(lines, i)]);
    } else {
      assert ScanBlocks(d, lines, i)[0] == Line(lines[i], KindOf(d, lines[i]));
      assert [lines[i]] == lines[i..i + 1];
    }
  }

  /** The first block of lines[i..] when line i opens a code block. */
  lemma FenceHead(d: Dialect, lines: seq<string>, i: nat)
    requires AllOneLine(lines) && i < |lines| && IsFence(lines[i])
    ensures var j := FenceEnd(lines, i + 1);
      ScanBlocks(d, lines, i)[0] == Fence(lines[i], lines[i + 1..j], if j < |lines| then Some(lines[j]) else None)
  {
  }

  /** The first block of lines[i..] when line i starts a table. */
  lemma TableHead(d: Dialect, lines: seq<string>, i: nat)
    requires AllOneLine(lines) && i < |lines| && !IsFence(lines[i]) && IsTableStart(lines[i])
    ensures ScanBlocks(d, lines, i)[0] == Table(lines[i..TableEnd(lines, i)])
  {
  }

  /** The first block of lines[i..] when line i is classified on its own. */
  lemma LineHead(d: Dialect, lines: seq<string>, i: nat)
    requires AllOneLine(lines) && i < |lines| && !IsFence(lines[i]) && !IsTableStart(lines[i])
    ensures ScanBlocks(d, lines, i)[0] == Line(lines[i], KindOf(d, lines[i]))
  {
  }

  /** A code block's lines: the opening fence, the code, and the closing fence when there is one. */
  lemma FenceLines(lines: seq<string>, i: nat, j: nat)
    requires i < j <= |lines|
    ensures var closing := if j < |lines| then Some(lines[j]) else None;
      var e := if j < |lines| then j + 1 else |lines|;
      Source(Fence(lines[i], lines[i + 1..j], closing)) == lines[i..e]
  {
    if j < |lines| {
      assert [lines[i]] + lines[i + 1..j] + [lines[j]] == lines[i..j + 1];
    } else {
      assert [lines[i]] + lines[i + 1..j] + [] == lines[i..];
    }
  }

  lemma ScanPastEnd(d: Dialect, lines: seq<string>, i: nat)
    requires AllOneLine(lines) && i >= |lines|
    ensures ScanBlocks(d, lines, i) == [] && Sources(ScanBlocks(d, lines, i)) == []
  {
  }

  /** The lines of the scan from i: those of its first block, then those of the scan after it. */
  lemma CoverStep(d: Dialect, lines: seq<string>, i: nat)
    requires AllOneLine(lines) && i < |lines|
    ensures var n := NextIndex(d, lines, i); var e := if n <= |lines| then n else |lines|;
      Sources(ScanBlocks(d, lines, i)) == lines[i..e] + Sources(ScanBlocks(d, lines, n))
  {
    var bs := ScanBlocks(d, lines, i);
    var n := NextIndex(d, lines, i);
    ScanStep(d, lines, i);
    HeadSource(d, lines, i);
    SourcesCons(bs[0], ScanBlocks(d, lines, n));
  }

  /** The blocks read every line once and in order: put back together they are the text. */
  lemma {:induction false} ScanCovers(d: Dialect, lines: seq<string>, i: nat)
    requires AllOneLine(lines) && i <= |lines|
    decreases |lines| - i
    ensures Sources(ScanBlocks(d, lines, i)) == lines[i..]
  {
    if i < |lines| {
      var n := NextIndex(d, lines, i);
      CoverStep(d, lines, i);
      if n <= |lines| {
        ScanCovers(d, lines, n);
        assert lines[i..] == lines[i..n] + lines[n..];
      } else {
        ScanPastEnd(d, lines, n);
        assert lines[i..|lines|] + [] == lines[i..];
      }
    } else {
      ScanPastEnd(d, lines, i);
    }
  }

  /**
   * What each block is: a code block opens with a fence, holds no fence and
   * is closed by one if by anything; a table starts with a line piped at
   * both ends and has only lines starting with a pipe; any other line is
   * neither and is classified on its own.
   */
  predicate BlockOk(d: Dialect, b: Block) {
    match b
    case Fence(o, code, c) =>
      IsFence(o) && (forall k :: 0 <= k < |code| ==> !IsFence(code[k])) && (c.Some? ==> IsFence(c.value))
    case Table(rows) =>
      rows != [] && IsTableStart(rows[0]) && forall k :: 0 <= k < |rows| ==> StartsPipe(rows[k])
    case Line(l, kind) =>
      !IsFence(l) && !IsTableStart(l) && OneLine(l) && kind == KindOf(d, l)
  }

  /** The first block of lines[i..] starts with line i. */
  lemma ScanHead(d: Dialect, lines: seq<string>, i: nat)
    requires AllOneLine(lines) && i < |lines|
    ensures var bs := ScanBlocks(d, lines, i); bs != [] && |Source(bs[0])| >= 1 && Source(bs[0])[0] == lines[i]
  {
    if IsTableStart(lines[i]) {
      var j := TableEnd(lines, i);
      assert lines[i..j][0] == lines[i];
    }
  }

  /**
   * Each block is well formed; a code block without a closing fence is the
   * last block (it runs to the end of the text); and the line after a table
   * does not start with a pipe (the table took every such line).
   */
  lemma {:induction false} ScanAt(d: Dialect, lines: seq<string>, i: nat, k: nat)
    requires AllOneLine(lines) && k < |ScanBlocks(d, lines, i)|
    decreases |lines| - i
    ensures var bs := ScanBlocks(d, lines, i); BlockOk(d, bs[k])
    ensures var bs := ScanBlocks(d, lines, i); bs[k].Fence? && bs[k].closing.None? ==> k == |bs| - 1
    ensures var bs := ScanBlocks(d, lines, i);
      bs[k].Table? && k + 1 < |bs| ==> !bs[k + 1].Table? && !StartsPipe(Source(bs[k + 1])[0])
  {
    var bs := ScanBlocks(d, lines, i);
    var n := NextIndex(d, lines, i);
    ScanStep(d, lines, i);
    if k > 0 {
      ScanAt(d, lines, n, k - 1);
      assert bs[k] == ScanBlocks(d, lines, n)[k - 1];
      if k + 1 < |bs| {
        assert bs[k + 1] == ScanBlocks(d, lines, n)[k];
      }
    } else if IsFence(lines[i]) {
      FenceEndSpec(lines, i + 1);
      var j := FenceEnd(lines, i + 1);
      var code := lines[i + 1..j];
      forall m | 0 <= m < |code| ensures !IsFence(code[m]) {
        assert code[m] == lines[i + 1 + m];
      }
    } else if IsTableStart(lines[i]) {
      TableEndSpec(lines, i);
      var j := TableEnd(lines, i);
      var rows := lines[i..j];
      forall m | 0 <= m < |rows| ensures StartsPipe(rows[m]) {
        assert rows[m] == lines[i + m];
      }
      if 1 < |bs| {
        ScanHead(d, lines, j);
      }
    }
  }

  /** An opening fence with no fence after it takes every remaining line as code. */
  lemma UnclosedFence(d: Dialect, lines: seq<string>, i: nat)
    requires AllOneLine(lines) && i < |lines| && IsFence(lines[i])
    requires forall k :: i < k < |lines| ==> !IsFence(lines[k])
    ensures ScanBlocks(d, lines, i) == [Fence(lines[i], lines[i + 1..], None)]
  {
    FenceEndSpec(lines, i + 1);
    assert FenceEnd(lines, i + 1) == |lines|;
    assert lines[i + 1..FenceEnd(lines, i + 1)] == lines[i + 1..];
    ScanPastEnd(d, lines, |lines| + 1);
  }
}
