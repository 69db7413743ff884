/**
 * `markdown_to_html`: a message converted to the HTML put on the clipboard.
 * The thinking sections are removed, the text is split into lines and the
 * block scan runs over them. Each block becomes one or more parts of the
 * output, and consecutive list items share one `<ul>` or `<ol>` element
 * that any other block closes.
 */
module MarkdownHtml {
  import opened Text
  import opened LineKinds
  import opened Blocks
  import Think
  import HtmlEscape
  import InlineHtml
  import Tables
  import Numerals

  datatype ListType = Ul | Ol

  function ListTag(t: ListType): string {
    if t == Ul then "ul" else "ol"
  }

  /** Whether a list element is open, and of which type. */
  datatype ListState = NoList | InList(list: ListType)

  /** One entry of `html_parts`. */
  datatype Part =
    | OpenList(list: ListType)
    | CloseList(list: ListType)
    | ListItem(list: ListType, content: string)
    | Header(level: nat, content: string)
    | Paragraph(content: string)
    | Rule
    | CodeDiv(code: seq<string>)
    | TablePart(rows: seq<string>)

  /** The styled `<div>` a code block is written in. */
  const CodeDivOpen: string :=
    "<div style=\"background-color:#f0f0f0; padding:10px; border:1px solid #ccc; "
    + "font-family:Consolas,monospace; font-size:10pt; white-space:pre-wrap;\">"

  /** Every code line escaped. */
  function EscapeLines(code: seq<string>): (r: seq<string>)
    ensures |r| == |code|
  {
    seq(|code|, k requires 0 <= k < |code| => HtmlEscape.Escape(code[k]))
  }

  /** Escaping one more line of a slice. */
  lemma EscapeLinesSnoc(lines: seq<string>, start: nat, j: nat)
    requires start <= j < |lines|
    ensures EscapeLines(lines[start..j + 1]) == EscapeLines(lines[start..j]) + [HtmlEscape.Escape(lines[j])]
  {
    var a, b := lines[start..j + 1], lines[start..j];
    assert forall k :: 0 <= k < |b| ==> a[k] == b[k];
  }

  function PartHtml(p: Part): string {
    match p
    case OpenList(t) => "<" + ListTag(t) + ">"
    case CloseList(t) => "</" + ListTag(t) + ">"
    case ListItem(_, c) => "<li>" + InlineHtml.InlineFormat(c) + "</li>"
    case Header(n, c) =>
      var lv := Numerals.Decimal(n);
      "<h" + lv + ">" + InlineHtml.InlineFormat(c) + "</h" + lv + ">"
    case Paragraph(c) => "<p>" + InlineHtml.InlineFormat(c) + "</p>"
    case Rule => "<hr>"
    case CodeDiv(code) => CodeDivOpen + Join(EscapeLines(code), "<br>") + "</div>"
    case TablePart(rows) => Tables.TableHtml(rows)
  }

  function PartsHtml(ps: seq<Part>): (r: seq<string>)
    ensures |r| == |ps|
  {
    Map(PartHtml, ps)
  }

  /** `''.join(pieces)` */
  function Concat(pieces: seq<string>): string {
    if pieces == [] then [] else Concat(pieces[..|pieces| - 1]) + pieces[|pieces| - 1]
  }

  /** The closing tag written when a list is open and something other than an item of its type follows. */
  function CloseParts(st: ListState): seq<Part> {
    if st.InList? then [CloseList(st.list)] else []
  }

  /** The parts a step adds and the list state after it. */
  datatype Acc = Acc(parts: seq<Part>, state: ListState)

  /** A list item: it joins the open list of its type, or closes any other list and opens its own. */
  function ListStep(st: ListState, t: ListType, content: string): Acc {
    if st == InList(t) then Acc([ListItem(t, content)], st)
    else Acc(CloseParts(st) + [OpenList(t), ListItem(t, content)], InList(t))
  }

  /** One classified line; anything but a list item closes the open list. */
  function LineStep(st: ListState, k: Kind): Acc {
    match k
    case RuleLine => Acc(CloseParts(st) + [Rule], NoList)
    case HeadingLine(h) => Acc(CloseParts(st) + [Header(h.level, h.content)], NoList)
    case BulletLine(it) => ListStep(st, Ul, it.content)
    case NumberedLine(it) => ListStep(st, Ol, it.content)
    case BlankLine => Acc(CloseParts(st), NoList)
    case TextLine(t) => Acc(CloseParts(st) + [Paragraph(t)], NoList)
  }

  function Step(st: ListState, b: Block): Acc {
    match b
    case Fence(_, code, _) => Acc(CloseParts(st) + [CodeDiv(code)], NoList)
    case Table(rows) => Acc(CloseParts(st) + [TablePart(rows)], NoList)
    case Line(_, k) => LineStep(st, k)
  }

  /** The parts of a sequence of blocks, and the list state after them. */
  function Fold(bs: seq<Block>): Acc {
    if bs == [] then Acc([], NoList)
    else
      var prev := Fold(bs[..|bs| - 1]);
      var s := Step(prev.state, bs[|bs| - 1]);
      Acc(prev.parts + s.parts, s.state)
  }

  /** All of `html_parts`: a list still open at the end is closed. */
  function Parts(bs: seq<Block>): seq<Part> {
    var a := Fold(bs);
    a.parts + CloseParts(a.state)
  }

  /** `markdown_to_html(text)` */
  function MarkdownToHtml(text: string): string {
    var stripped := Think.StripThinking(text);
    SplitLines(stripped);
    Concat(PartsHtml(Parts(ScanBlocks(Html, Split(stripped, '\n'), 0))))
  }

  // ---- The source's loops ----

  function StateOf(inList: bool, listType: ListType): ListState {
    if inList then InList(listType) else NoList
  }

  lemma PartsHtmlAppend(a: seq<Part>, b: seq<Part>)
    ensures PartsHtml(a + b) == PartsHtml(a) + PartsHtml(b)
  {
    MapAppend(PartHtml, a, b);
  }

  /** `if in_list: html_parts.append(f"</{list_type}>"); in_list = False` */
  method CloseOpenList(parts: seq<string>, inList: bool, listType: ListType) returns (parts': seq<string>)
    ensures parts' == parts + PartsHtml(CloseParts(StateOf(inList, listType)))
  {
    parts' := parts;
    if inList {
      parts' := parts' + ["</" + ListTag(listType) + ">"];
      assert PartsHtml([CloseList(listType)]) == [PartHtml(CloseList(listType))];
    }
  }

  /** The code-collecting loop: each line up to the next fence, escaped. */
  method CollectEscapedCode(lines: seq<string>, start: nat) returns (code: seq<string>, j: nat)
    requires start <= |lines|
    ensures j == FenceEnd(lines, start) && code == EscapeLines(lines[start..j])
  {
    code := [];
    j := start;
    while j < |lines| && !IsFence(lines[j])
      invariant start <= j <= |lines| && code == EscapeLines(lines[start..j])
      invariant FenceEnd(lines, start) == FenceEnd(lines, j)
      decreases |lines| - j
    {
      EscapeLinesSnoc(lines, start, j);
      code := code + [HtmlEscape.Escape(lines[j])];
      j := j + 1;
    }
  }

  /** Any open list closed, then the HTML of one more part. */
  method CloseAndAppend(parts: seq<string>, inList: bool, listType: ListType, html: string, ghost p: Part)
    returns (parts': seq<string>)
    requires html == PartHtml(p)
    ensures parts' == parts + PartsHtml(CloseParts(StateOf(inList, listType)) + [p])
  {
    parts' := CloseOpenList(parts, inList, listType);
    parts' := parts' + [html];
    PartsHtmlAppend(CloseParts(StateOf(inList, listType)), [p]);
  }

  /** A list item, opening its list first when that list is not the open one. */
  method ConvertItem(parts: seq<string>, inList: bool, listType: ListType, t: ListType, content: string)
    returns (parts': seq<string>, inList': bool, listType': ListType)
    ensures var s := ListStep(StateOf(inList, listType), t, content);
      parts' == parts + PartsHtml(s.parts) && StateOf(inList', listType') == s.state
  {
    var html := InlineHtml.InlineFormat(content);
    parts' := parts;
    inList', listType' := inList, listType;
    if !inList || listType != t {
      parts' := CloseAndAppend(parts, inList, listType, "<" + ListTag(t) + ">", OpenList(t));
      inList', listType' := true, t;
      PartsHtmlAppend(CloseParts(StateOf(inList, listType)) + [OpenList(t)], [ListItem(t, content)]);
      assert CloseParts(StateOf(inList, listType)) + [OpenList(t)] + [ListItem(t, content)]
        == CloseParts(StateOf(inList, listType)) + [OpenList(t), ListItem(t, content)];
    }
    parts' := parts' + ["<li>" + html + "</li>"];
  }

  /** A heading: any open list closed, then `<h{level}>` around the formatted content. */
  method ConvertHeading(parts: seq<string>, inList: bool, listType: ListType, h: Heading) returns (parts': seq<string>)
    ensures parts' == parts + PartsHtml(CloseParts(StateOf(inList, listType)) + [Header(h.level, h.content)])
  {
    var level := Numerals.Decimal(h.level);
    var content := InlineHtml.InlineFormat(h.content);
    parts' := CloseAndAppend(parts, inList, listType, "<h" + level + ">" + content + "</h" + level + ">",
      Header(h.level, h.content));
  }

  /** Any other text: any open list closed, then a paragraph of the formatted line. */
  method ConvertParagraph(parts: seq<string>, inList: bool, listType: ListType, line: string) returns (parts': seq<string>)
    ensures parts' == parts + PartsHtml(CloseParts(StateOf(inList, listType)) + [Paragraph(line)])
  {
    var content := InlineHtml.InlineFormat(line);
    parts' := CloseAndAppend(parts, inList, listType, "<p>" + content + "</p>", Paragraph(line));
  }

  /** A line that is neither a fence nor a table start, right-stripped, in the order the patterns are tried. */
  method ConvertLine(raw: string, parts: seq<string>, inList: bool, listType: ListType)
    returns (parts': seq<string>, inList': bool, listType': ListType)
    requires OneLine(raw)
    ensures var s := LineStep(StateOf(inList, listType), KindOf(Html, raw));
      parts' == parts + PartsHtml(s.parts) && StateOf(inList', listType') == s.state
  {
    ghost var st := StateOf(inList, listType);
    ghost var k := KindOf(Html, raw);
    var line := RStrip(raw);
    OneLineRStrip(raw);
    if IsRule(line) {
      assert k == RuleLine;
      parts' := CloseAndAppend(parts, inList, listType, "<hr>", Rule);
      inList', listType' := false, listType;
      return;
    }
    var h := MatchHeading(line);
    if h.Some? {
      assert k == HeadingLine(h.value);
      parts' := ConvertHeading(parts, inList, listType, h.value);
      inList', listType' := false, listType;
      return;
    }
    var b := MatchBullet(line);
    if b.Some? {
      assert k == BulletLine(b.value);
      parts', inList', listType' := ConvertItem(parts, inList, listType, Ul, b.value.content);
      return;
    }
    var n := MatchNumbered(line);
    if n.Some? {
      assert k == NumberedLine(n.value);
      parts', inList', listType' := ConvertItem(parts, inList, listType, Ol, n.value.content);
      return;
    }
    if IsBlank(line) {
      assert k == BlankLine;
      parts' := CloseOpenList(parts, inList, listType);
      inList', listType' := false, listType;
      return;
    }
    assert k == TextLine(line);
    parts' := ConvertParagraph(parts, inList, listType, line);
    inList', listType' := false, listType;
  }

  /** A code block: any open list closed, then the escaped lines in the styled `<div>`. */
  method ConvertFence(lines: seq<string>, i: nat, parts: seq<string>, inList: bool, listType: ListType)
    returns (parts': seq<string>, next: nat)
    requires AllOneLine(lines) && i < |lines| && IsFence(lines[i])
    ensures var s := Step(StateOf(inList, listType), ScanBlocks(Html, lines, i)[0]);
      parts' == parts + PartsHtml(s.parts) && s.state == NoList
    ensures next == NextIndex(Html, lines, i)
  {
    var code, j := CollectEscapedCode(lines, i + 1);
    FenceHead(Html, lines, i);
    parts' := CloseAndAppend(parts, inList, listType, CodeDivOpen + Join(code, "<br>") + "</div>",
      CodeDiv(lines[i + 1..j]));
    next := j + 1;
  }

  /** A table: any open list closed, then the table's HTML. */
  method ConvertTable(lines: seq<string>, i: nat, parts: seq<string>, inList: bool, listType: ListType)
    returns (parts': seq<string>, next: nat)
    requires AllOneLine(lines) && i < |lines| && !IsFence(lines[i]) && IsTableStart(lines[i])
    ensures var s := Step(StateOf(inList, listType), ScanBlocks(Html, lines, i)[0]);
      parts' == parts + PartsHtml(s.parts) && s.state == NoList
    ensures next == NextIndex(Html, lines, i)
  {
    var tableLines, j := CollectTable(lines, i);
    TableHead(Html, lines, i);
    var html := Tables.ParseTableToHtml(tableLines);
    parts' := CloseAndAppend(parts, inList, listType, html, TablePart(tableLines));
    next := j;
  }

  /** One pass of the scan loop: the block at line i and where the scan goes on. */
  method ConvertStep(lines: seq<string>, i: nat, parts: seq<string>, inList: bool, listType: ListType)
    returns (parts': seq<string>, inList': bool, listType': ListType, next: nat)
    requires AllOneLine(lines) && i < |lines|
    ensures var s := Step(StateOf(inList, listType), ScanBlocks(Html, lines, i)[0]);
      parts' == parts + PartsHtml(s.parts) && StateOf(inList', listType') == s.state
    ensures next == NextIndex(Html, lines, i)
  {
    var line := RStrip(lines[i]);
    StripOfRStrip(lines[i]);
    if IsFence(line) {
      parts', next := ConvertFence(lines, i, parts, inList, listType);
      inList', listType' := false, listType;
    } else if IsTableStart(line) {
      parts', next := ConvertTable(lines, i, parts, inList, listType);
      inList', listType' := false, listType;
    } else {
      LineHead(Html, lines, i);
      parts', inList', listType' := ConvertLine(lines[i], parts, inList, listType);
      next := i + 1;
    }
  }

  /** `markdown_to_html`: the loop over the lines, then the join. */
  method ConvertMarkdown(text: string) returns (html: string)
    ensures html == MarkdownToHtml(text)
  {
    var stripped := Think.StripThinking(text);
    var lines := Split(stripped, '\n');
    SplitLines(stripped);
    var parts: seq<string> := [];
    var i: nat := 0;
    var inList := false;
    var listType := Ul;
    ghost var done: seq<Block> := [];
    while i < |lines|
      invariant ScanBlocks(Html, lines, 0) == done + ScanBlocks(Html, lines, i)
      invariant parts == PartsHtml(Fold(done).parts) && StateOf(inList, listType) == Fold(done).state
      decreases |lines| - i
    {
      ghost var b := ScanBlocks(Html, lines, i)[0];
      ghost var prev := Fold(done);
      ScanStep(Html, lines, i);
      parts, inList, listType, i := ConvertStep(lines, i, parts, inList, listType);
      Assoc(done, [b], ScanBlocks(Html, lines, i));
      assert (done + [b])[..|done|] == done;
      PartsHtmlAppend(prev.parts, Step(prev.state, b).parts);
      done := done + [b];
    }
    assert ScanBlocks(Html, lines, i) == [];
    AppendEmpty(done);
    var final := CloseOpenList(parts, inList, listType);
    PartsHtmlAppend(Fold(done).parts, CloseParts(Fold(done).state));
    html := Concat(final);
  }

  // ---- Properties ----

  /**
   * The list discipline of the parts: a list opens only outside any list, an
   * item only inside a list of its own type, a list closes with the tag of
   * its own type, and every other part stands outside lists.
   */
  function NestStep(st: ListState, p: Part): Option<ListState> {
    match p
    case OpenList(t) => if st == NoList then Some(InList(t)) else None
    case CloseList(t) => if st == InList(t) then Some(NoList) else None
    case ListItem(t, _) => if st == InList(t) then Some(st) else None
    case _ => if st == NoList then Some(NoList) else None
  }

  function Nest(st: ListState, ps: seq<Part>): Option<ListState>
    decreases |ps|
  {
    if ps == [] then Some(st)
    else match NestStep(st, ps[0])
      case None => None
      case Some(s) => Nest(s, ps[1..])
  }

  lemma {:induction false} NestAppend(st: ListState, a: seq<Part>, b: seq<Part>)
    decreases |a|
    ensures Nest(st, a + b) == match Nest(st, a) case None => None case Some(s) => Nest(s, b)
  {
    if a != [] {
      assert (a + b)[0] == a[0] && (a + b)[1..] == a[1..] + b;
      match NestStep(st, a[0])
      case None =>
      case Some(s) => NestAppend(s, a[1..], b);
    } else {
      assert a + b == b;
    }
  }

  lemma CloseNests(st: ListState)
    ensures Nest(st, CloseParts(st)) == Some(NoList)
  {
  }

  /** A part after a list is closed: the close and the part keep the discipline. */
  lemma CloseThenNests(st: ListState, p: Part)
    requires NestStep(NoList, p) == Some(NoList)
    ensures Nest(st, CloseParts(st) + [p]) == Some(NoList)
  {
    NestAppend(st, CloseParts(st), [p]);
  }

  lemma StepNests(st: ListState, b: Block)
    ensures Nest(st, Step(st, b).parts) == Some(Step(st, b).state)
  {
    match b
    case Fence(_, code, _) => CloseThenNests(st, CodeDiv(code));
    case Table(rows) => CloseThenNests(st, TablePart(rows));
    case Line(_, k) =>
      match k
      case RuleLine => CloseThenNests(st, Rule);
      case HeadingLine(h) => CloseThenNests(st, Header(h.level, h.content));
      case BulletLine(it) => ListStepNests(st, Ul, it.content);
      case NumberedLine(it) => ListStepNests(st, Ol, it.content);
      case BlankLine => CloseNests(st);
      case TextLine(t) => CloseThenNests(st, Paragraph(t));
  }

  lemma ListStepNests(st: ListState, t: ListType, content: string)
    ensures Nest(st, ListStep(st, t, content).parts) == Some(InList(t))
  {
    if st != InList(t) {
      NestAppend(st, CloseParts(st), [OpenList(t), ListItem(t, content)]);
      CloseNests(st);
      assert [OpenList(t), ListItem(t, content)][1..] == [ListItem(t, content)];
      assert Nest(InList(t), [ListItem(t, content)]) == Some(InList(t));
    }
  }

  /** The parts of any prefix of blocks keep the discipline and end in the state the scan holds. */
  lemma {:induction false} FoldNests(bs: seq<Block>)
    ensures Nest(NoList, Fold(bs).parts) == Some(Fold(bs).state)
  {
    if bs != [] {
      var prev := Fold(bs[..|bs| - 1]);
      FoldNests(bs[..|bs| - 1]);
      var s := Step(prev.state, bs[|bs| - 1]);
      StepNests(prev.state, bs[|bs| - 1]);
      NestAppend(NoList, prev.parts, s.parts);
    }
  }

  /**
   * The lists of `markdown_to_html` are well formed whatever the text: every
   * `<ul>` and `<ol>` opens outside any list and is closed by its own tag,
   * every `<li>` sits in a list of the type its line asked for, and no list
   * is left open at the end.
   */
  lemma WellNested(bs: seq<Block>)
    ensures Nest(NoList, Parts(bs)) == Some(NoList)
  {
    FoldNests(bs);
    NestAppend(NoList, Fold(bs).parts, CloseParts(Fold(bs).state));
    CloseNests(Fold(bs).state);
  }

  /** The content a block contributes, apart from any list tags. */
  function Content(b: Block): seq<Part> {
    match b
    case Fence(_, code, _) => [CodeDiv(code)]
    case Table(rows) => [TablePart(rows)]
    case Line(_, k) =>
      match k
      case RuleLine => [Rule]
      case HeadingLine(h) => [Header(h.level, h.content)]
      case BulletLine(it) => [ListItem(Ul, it.content)]
      case NumberedLine(it) => [ListItem(Ol, it.content)]
      case BlankLine => []
      case TextLine(t) => [Paragraph(t)]
  }

  function Contents(bs: seq<Block>): seq<Part> {
    if bs == [] then [] else Contents(bs[..|bs| - 1]) + Content(bs[|bs| - 1])
  }

  /** The parts without the list tags. */
  function Unlisted(ps: seq<Part>): seq<Part> {
    if ps == [] then []
    else
      var p := ps[|ps| - 1];
      Unlisted(ps[..|ps| - 1]) + if p.OpenList? || p.CloseList? then [] else [p]
  }

  lemma {:induction false} UnlistedAppend(a: seq<Part>, b: seq<Part>)
    ensures Unlisted(a + b) == Unlisted(a) + Unlisted(b)
  {
    if b == [] {
      assert a + b == a;
    } else {
      var c, p := b[..|b| - 1], b[|b| - 1];
      UnlistedAppend(a, c);
      assert (a + b)[..|a + b| - 1] == a + c && (a + b)[|a + b| - 1] == p;
    }
  }

  lemma UnlistedOne(p: Part)
    ensures Unlisted([p]) == if p.OpenList? || p.CloseList? then [] else [p]
  {
    assert [p][..0] == [];
  }

  lemma CloseContent(st: ListState)
    ensures Unlisted(CloseParts(st)) == []
  {
    UnlistedOne(CloseList(Ul));
    UnlistedOne(CloseList(Ol));
  }

  lemma CloseThenContent(st: ListState, p: Part)
    requires !p.OpenList? && !p.CloseList?
    ensures Unlisted(CloseParts(st) + [p]) == [p]
  {
    CloseContent(st);
    UnlistedAppend(CloseParts(st), [p]);
    UnlistedOne(p);
  }

  lemma ListStepContent(st: ListState, t: ListType, content: string)
    ensures Unlisted(ListStep(st, t, content).parts) == [ListItem(t, content)]
  {
    var item := ListItem(t, content);
    UnlistedOne(item);
    if st != InList(t) {
      var c := CloseParts(st);
      CloseContent(st);
      assert c + [OpenList(t), item] == (c + [OpenList(t)]) + [item];
      UnlistedAppend(c + [OpenList(t)], [item]);
      UnlistedAppend(c, [OpenList(t)]);
      UnlistedOne(OpenList(t));
    }
  }

  lemma StepContent(st: ListState, b: Block)
    ensures Unlisted(Step(st, b).parts) == Content(b)
  {
    match b
    case Fence(_, code, _) => CloseThenContent(st, CodeDiv(code));
    case Table(rows) => CloseThenContent(st, TablePart(rows));
    case Line(_, k) =>
      match k
      case RuleLine => CloseThenContent(st, Rule);
      case HeadingLine(h) => CloseThenContent(st, Header(h.level, h.content));
      case BulletLine(it) => ListStepContent(st, Ul, it.content);
      case NumberedLine(it) => ListStepContent(st, Ol, it.content);
      case BlankLine => CloseContent(st);
      case TextLine(t) => CloseThenContent(st, Paragraph(t));
  }

  lemma {:induction false} FoldContents(bs: seq<Block>)
    ensures Unlisted(Fold(bs).parts) == Contents(bs)
  {
    if bs != [] {
      var prev := Fold(bs[..|bs| - 1]);
      FoldContents(bs[..|bs| - 1]);
      StepContent(prev.state, bs[|bs| - 1]);
      UnlistedAppend(prev.parts, Step(prev.state, bs[|bs| - 1]).parts);
    }
  }

  /**
   * Nothing is lost or reordered: apart from the list tags, the parts are the
   * content of the blocks, one per block in order, blank lines giving none.
   */
  lemma ContentsKept(bs: seq<Block>)
    ensures Unlisted(Parts(bs)) == Contents(bs)
  {
    var a := Fold(bs);
    FoldContents(bs);
    UnlistedAppend(a.parts, CloseParts(a.state));
    CloseContent(a.state);
  }

  /** The lines of a code block can be read back from its HTML: each was escaped on its own. */
  lemma CodeLinesRecoverable(code: seq<string>, k: nat)
    requires k < |code|
    ensures HtmlEscape.Unescape(EscapeLines(code)[k]) == code[k]
  {
    HtmlEscape.EscapeRoundTrip(code[k]);
  }
}
