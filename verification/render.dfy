/**
 * `MessageRenderer._render_formatted`: the cleaned text of a message laid out
 * as a column of widgets. A code block becomes a code widget, a table with
 * at least one row a table widget, and each run of other lines one text
 * widget holding a line per source line, made of styled runs of text. The
 * widgets themselves (fonts, colours, packing) are not modelled: a widget
 * here is the content it is given.
 */
module Render {
  import opened Text
  import opened LineKinds
  import opened Blocks
  import opened Segments
  import Think
  import Tables

  /** A tag of the text widget: `normal`, `h1`…`h6`, `bullet`/`bullet1`/`bullet2`, `numbered`, or an inline tag. */
  datatype Style = Normal | HeadingStyle(level: nat) | BulletStyle(level: nat) | NumberedStyle | Inline(tag: Tag)

  /** Text inserted with its tags. */
  datatype Run = Run(text: string, styles: seq<Style>)

  datatype Widget =
    | CodeView(code: string, language: string)
    | TableView(rows: seq<seq<string>>)
    | TextView(lines: seq<seq<Run>>)

  function InlineStyles(tags: seq<Tag>): (r: seq<Style>)
    ensures |r| == |tags|
  {
    if tags == [] then [] else InlineStyles(tags[..|tags| - 1]) + [Inline(tags[|tags| - 1])]
  }

  /**
   * The tags a segment is inserted with: the base tags followed by the
   * segment's own, or the base alone when it has none, and `normal` when
   * that leaves nothing.
   */
  function Combined(base: seq<Style>, tags: seq<Tag>): (r: seq<Style>)
    ensures r != []
    ensures |base| <= |r| && r[..|base|] == base
    ensures tags != [] ==> r == base + InlineStyles(tags)
    ensures tags == [] && base != [] ==> r == base
    ensures tags == [] && base == [] ==> r == [Normal]
  {
    var c := if tags != [] then base + InlineStyles(tags) else base;
    if c == [] then [Normal] else c
  }

  function RunsOf(segs: seq<Segment>, base: seq<Style>): (r: seq<Run>)
    ensures |r| == |segs|
  {
    if segs == [] then []
    else RunsOf(segs[..|segs| - 1], base) + [Run(segs[|segs| - 1].text, Combined(base, segs[|segs| - 1].tags))]
  }

  /** Run j carries segment j's text under the combined tags. */
  lemma {:induction false} RunsOfAt(segs: seq<Segment>, base: seq<Style>, j: nat)
    requires j < |segs|
    ensures RunsOf(segs, base)[j] == Run(segs[j].text, Combined(base, segs[j].tags))
  {
    if j < |segs| - 1 {
      RunsOfAt(segs[..|segs| - 1], base, j);
    }
  }

  /** `InlineFormatter.render_line`: nothing for an empty text, otherwise one run per segment. */
  function LineRuns(text: string, base: seq<Style>): seq<Run> {
    if text == [] then [] else RunsOf(LineSegments(text), base)
  }

  /** The bullet characters `•`, `◦` and `▪`, by nesting level. */
  function BulletChar(level: nat): char
    requires level <= 2
  {
    if level == 0 then '\U{2022}' else if level == 1 then '\U{25E6}' else '\U{25AA}'
  }

  /** The runs one classified line inserts into its text widget. */
  function KindRuns(k: Kind): seq<Run> {
    match k
    case HeadingLine(h) => LineRuns(h.content, [HeadingStyle(h.level)])
    case BulletLine(it) =>
      var lv := IndentLevel(it.indent);
      [Run([BulletChar(lv), ' '], [BulletStyle(lv)])] + LineRuns(it.content, [BulletStyle(lv)])
    case NumberedLine(it) => [Run(it.marker + " ", [NumberedStyle])] + LineRuns(it.content, [NumberedStyle])
    case TextLine(t) => LineRuns(t, [])
    case BlankLine => []
    case RuleLine => []  // the widget renderer has no rules; its scan never yields one
  }

  /** The scan of the renderer has a text widget open: the last block is a line. */
  predicate Open(bs: seq<Block>) {
    bs != [] && bs[|bs| - 1].Line?
  }

  predicate EndsWithText(ws: seq<Widget>) {
    ws != [] && ws[|ws| - 1].TextView?
  }

  /**
   * The widgets after one more block: a code block adds a code widget, a
   * table adds a table widget when it has rows, and a line goes into the open
   * text widget or opens a new one.
   */
  function Add(ws: seq<Widget>, open: bool, b: Block): (r: seq<Widget>)
    requires open ==> EndsWithText(ws)
  {
    match b
    case Fence(o, code, _) => ws + [CodeView(Join(code, "\n"), FenceLanguage(o))]
    case Table(tl) =>
      var rows := Tables.TableRows(tl);
      if rows == [] then ws else ws + [TableView(rows)]
    case Line(_, k) =>
      if open then ws[..|ws| - 1] + [TextView(ws[|ws| - 1].lines + [KindRuns(k)])]
      else ws + [TextView([KindRuns(k)])]
  }

  /** The widgets of a sequence of blocks; while a text widget is open it is the last one. */
  function Layout(bs: seq<Block>): (ws: seq<Widget>)
    ensures Open(bs) ==> EndsWithText(ws)
  {
    if bs == [] then []
    else
      var prev := bs[..|bs| - 1];
      Add(Layout(prev), Open(prev), bs[|bs| - 1])
  }

  /** What `_render_formatted(text)` leaves in `_widgets`: nothing when the cleaned text is empty. */
  function Rendered(text: string): seq<Widget> {
    var cleaned := Think.CleanText(text);
    if cleaned == [] then []
    else
      var lines := Split(cleaned, '\n');
      SplitLines(cleaned);
      Layout(ScanBlocks(Widgets, lines, 0))
  }

  // ---- The source's loops ----

  /** The segment loop of `render_line`. */
  method RenderLine(text: string, base: seq<Style>) returns (runs: seq<Run>)
    ensures runs == LineRuns(text, base)
  {
    runs := [];
    if text == [] {
      return;
    }
    var segments := ParseSegments(text);
    var k: nat := 0;
    while k < |segments|
      invariant k <= |segments| && runs == RunsOf(segments[..k], base)
    {
      assert segments[..k + 1][..k] == segments[..k];
      var seg := segments[k];
      var combined := if seg.tags != [] then base + InlineStyles(seg.tags) else base;
      if combined == [] {
        combined := [Normal];
      }
      runs := runs + [Run(seg.text, combined)];
      k := k + 1;
    }
    assert segments[..k] == segments;
  }

  /** The code-collecting loop: the lines up to the next fence or the end. */
  method CollectCode(lines: seq<string>, start: nat) returns (code: seq<string>, j: nat)
    requires start <= |lines|
    ensures j == FenceEnd(lines, start) && code == lines[start..j]
  {
    code := [];
    j := start;
    while j < |lines| && !IsFence(lines[j])
      invariant start <= j <= |lines| && code == lines[start..j]
      invariant FenceEnd(lines, start) == FenceEnd(lines, j)
      decreases |lines| - j
    {
      code := code + [lines[j]];
      j := j + 1;
    }
  }

  /** A heading's content under the tag `h<level>`. */
  method RenderHeading(h: Heading) returns (runs: seq<Run>)
    ensures runs == KindRuns(HeadingLine(h))
  {
    runs := RenderLine(h.content, [HeadingStyle(h.level)]);
  }

  /** A bullet character chosen by indentation, then the content, all under the bullet tag of that level. */
  method RenderBullet(it: Item) returns (runs: seq<Run>)
    ensures runs == KindRuns(BulletLine(it))
  {
    var lv := IndentLevel(it.indent);
    var rest := RenderLine(it.content, [BulletStyle(lv)]);
    runs := [Run([BulletChar(lv), ' '], [BulletStyle(lv)])] + rest;
  }

  /** The number with its dot and a space, then the content, all under the `numbered` tag. */
  method RenderNumbered(it: Item) returns (runs: seq<Run>)
    ensures runs == KindRuns(NumberedLine(it))
  {
    var rest := RenderLine(it.content, [NumberedStyle]);
    runs := [Run(it.marker + " ", [NumberedStyle])] + rest;
  }

  /** The runs of a classified line: heading, bullet, numbered item or text. */
  method RenderKindRuns(k: Kind) returns (runs: seq<Run>)
    ensures runs == KindRuns(k)
  {
    match k
    case HeadingLine(h) => runs := RenderHeading(h);
    case BulletLine(it) => runs := RenderBullet(it);
    case NumberedLine(it) => runs := RenderNumbered(it);
    case TextLine(t) => runs := RenderLine(t, []);
    case BlankLine => runs := [];
    case RuleLine => runs := [];
  }

  /** What one line that is neither a fence nor a table start inserts: heading, bullet, numbered or text. */
  method RenderKind(line: string) returns (runs: seq<Run>)
    requires OneLine(line)
    ensures runs == KindRuns(KindOf(Widgets, line))
  {
    runs := RenderKindRuns(KindOf(Widgets, line));
  }

  /** One pass of the scan loop: the block at line i and where the scan goes on. */
  method RenderStep(lines: seq<string>, i: nat, widgets: seq<Widget>, open: bool)
    returns (widgets': seq<Widget>, open': bool, next: nat)
    requires AllOneLine(lines) && i < |lines| && (open ==> EndsWithText(widgets))
    ensures var b := ScanBlocks(Widgets, lines, i)[0];
      widgets' == Add(widgets, open, b) && open' == b.Line? && next == NextIndex(Widgets, lines, i)
  {
    var line := lines[i];
    if IsFence(line) {
      var lang := FenceLanguage(line);
      var code, j := CollectCode(lines, i + 1);
      widgets' := widgets + [CodeView(Join(code, "\n"), lang)];
      open' := false;
      next := j + 1;
    } else if IsTableStart(line) {
      var tableLines, j := CollectTable(lines, i);
      var rows := Tables.ParseTableRows(tableLines);
      widgets' := if rows != [] then widgets + [TableView(rows)] else widgets;
      open' := false;
      next := j;
    } else {
      var runs := RenderKind(line);
      if open {
        var last := widgets[|widgets| - 1];
        widgets' := widgets[..|widgets| - 1] + [TextView(last.lines + [runs])];
      } else {
        widgets' := widgets + [TextView([runs])];
      }
      open' := true;
      next := i + 1;
    }
  }

  /** `MessageRenderer._render_formatted`: the widgets it leaves in `_widgets`. */
  method RenderFormatted(text: string) returns (widgets: seq<Widget>)
    ensures widgets == Rendered(text)
  {
    widgets := [];
    var cleaned := Think.CleanText(text);
    if cleaned == [] {
      return;
    }
    var lines := Split(cleaned, '\n');
    SplitLines(cleaned);
    var i: nat := 0;
    var open := false;
    ghost var done: seq<Block> := [];
    while i < |lines|
      invariant ScanBlocks(Widgets, lines, 0) == done + ScanBlocks(Widgets, lines, i)
      invariant widgets == Layout(done) && open == Open(done)
      decreases |lines| - i
    {
      ghost var b := ScanBlocks(Widgets, lines, i)[0];
      ScanStep(Widgets, lines, i);
      widgets, open, i := RenderStep(lines, i, widgets, open);
      Assoc(done, [b], ScanBlocks(Widgets, lines, i));
      assert (done + [b])[..|done|] == done;
      done := done + [b];
    }
    assert ScanBlocks(Widgets, lines, i) == [];
    AppendEmpty(done);
  }

  // ---- Properties ----

  /** A text line without any marker character is shown as it is, in the normal style. */
  lemma PlainTextShown(line: string)
    requires line != [] && forall k :: 0 <= k < |line| ==> !Opener(line[k])
    ensures LineRuns(line, []) == [Run(line, [Normal])]
  {
    OpenerFreeLine(line);
  }

  /** A heading's runs carry the heading tag of its level first. */
  lemma HeadingRuns(h: Heading, j: nat)
    requires j < |KindRuns(HeadingLine(h))|
    ensures KindRuns(HeadingLine(h))[j].styles != [] && KindRuns(HeadingLine(h))[j].styles[0] == HeadingStyle(h.level)
  {
    RunsOfAt(LineSegments(h.content), [HeadingStyle(h.level)], j);
  }

  /**
   * A bullet opens with its bullet character for the level `min(indent // 2, 2)`
   * and every run of it carries that level's bullet tag first.
   */
  lemma BulletRuns(it: Item, j: nat)
    requires j < |KindRuns(BulletLine(it))|
    ensures var lv := IndentLevel(it.indent);
      KindRuns(BulletLine(it))[0].text == [BulletChar(lv), ' '] &&
      KindRuns(BulletLine(it))[j].styles != [] && KindRuns(BulletLine(it))[j].styles[0] == BulletStyle(lv)
  {
    if j > 0 {
      var lv := IndentLevel(it.indent);
      RunsOfAt(LineSegments(it.content), [BulletStyle(lv)], j - 1);
    }
  }

  /** Every run is inserted with at least one tag, and none of the text widget's runs is empty. */
  lemma LineRunsSolid(text: string, base: seq<Style>)
    ensures forall j :: 0 <= j < |LineRuns(text, base)| ==>
      LineRuns(text, base)[j].text != [] && LineRuns(text, base)[j].styles != []
  {
    LineSegmentsSolid(text);
    forall j | 0 <= j < |LineRuns(text, base)|
      ensures LineRuns(text, base)[j].text != [] && LineRuns(text, base)[j].styles != []
    {
      RunsOfAt(LineSegments(text), base, j);
    }
  }

  /** The number of lines in the text widgets of a layout. */
  function TextLines(ws: seq<Widget>): nat {
    if ws == [] then 0
    else TextLines(ws[..|ws| - 1]) + (if ws[|ws| - 1].TextView? then |ws[|ws| - 1].lines| else 0)
  }

  function LineBlocks(bs: seq<Block>): nat {
    if bs == [] then 0 else LineBlocks(bs[..|bs| - 1]) + (if bs[|bs| - 1].Line? then 1 else 0)
  }

  /** Every line block becomes exactly one line of some text widget. */
  lemma {:induction false} LayoutKeepsLines(bs: seq<Block>)
    ensures TextLines(Layout(bs)) == LineBlocks(bs)
  {
    if bs != [] {
      var prev := bs[..|bs| - 1];
      var ws := Layout(prev);
      LayoutKeepsLines(prev);
      var b := bs[|bs| - 1];
      var r := Add(ws, Open(prev), b);
      if b.Line? && Open(prev) {
        var last := ws[|ws| - 1];
        var front := ws[..|ws| - 1];
        assert r[..|r| - 1] == front;
        assert ws[..|ws| - 1] == front;
      } else if b.Line? || r != ws {
        assert r[..|r| - 1] == ws;
      }
    }
  }
}
