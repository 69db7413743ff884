/**
 * How a `MessageRenderer` follows a reply while it streams in: plain,
 * stripped text until enough tokens have arrived and the text shows
 * Markdown, then a formatted render, refreshed in full every hundred
 * tokens or when new structure appears and otherwise extended in place;
 * a final full render when streaming stops. Tokens are estimated as a
 * quarter of the characters added, at least one per update.
 */
module Streaming {
  import Think
  import Detect
  import opened Text
  import opened Render

  /** `RENDER_THRESHOLD`: tokens before formatting is considered. */
  const RenderThreshold := 30
  /** `RERENDER_INTERVAL`: tokens between full re-renders while streaming. */
  const RerenderInterval := 100

  /** The renderer's fields; `plain` says whether `_plain_text_widget` is set. */
  datatype View = View(
    raw: string,
    streaming: bool,
    tokens: int,
    lastTokens: int,
    lastRendered: string,
    formatted: bool,
    widgets: seq<Widget>,
    plain: bool)

  const Initial := View("", false, 0, 0, "", false, [], false)

  /**
   * What the fields always satisfy: the plain-text widget, when there is
   * one, is the only widget and formatted mode is off; the token counters
   * are ordered.
   */
  predicate Ok(v: View) {
    (v.plain ==> |v.widgets| == 1 && v.widgets[0].TextView? && !v.formatted) &&
    0 <= v.lastTokens <= v.tokens
  }

  function Max(a: int, b: int): int {
    if a < b then b else a
  }

  /** The runs one line of inserted text puts on its line: none when it is empty. */
  function PieceLine(piece: string): seq<Run> {
    if piece == [] then [] else [Run(piece, [Normal])]
  }

  /**
   * `insert(END, t, ("normal",))` on a text widget: the first line of t joins
   * the widget's last line and every further line of t starts a new one. An
   * empty widget has one empty line.
   */
  function InsertText(lines: seq<seq<Run>>, t: string): (r: seq<seq<Run>>)
    ensures |r| == Max(|lines|, 1) + |Split(t, '\n')| - 1
    ensures lines != [] ==> var m := |lines| - 1;
      r[..m] == lines[..m] && |lines[m]| <= |r[m]| && r[m][..|lines[m]|] == lines[m]
  {
    var ps := Split(t, '\n');
    var ls := if lines == [] then [[]] else lines;
    ls[..|ls| - 1] + [ls[|ls| - 1] + PieceLine(ps[0])] + Map(PieceLine, ps[1..])
  }

  /** The characters of a line's runs. */
  function RunsText(runs: seq<Run>): string {
    if runs == [] then [] else RunsText(runs[..|runs| - 1]) + runs[|runs| - 1].text
  }

  /** What a text widget shows: its lines joined by newlines. */
  function LinesText(lines: seq<seq<Run>>): string {
    Join(Map(RunsText, lines), "\n")
  }

  /** The line of a piece shows that piece. */
  lemma PieceLineText(runs: seq<Run>, piece: string)
    ensures RunsText(runs + PieceLine(piece)) == RunsText(runs) + piece
  {
    if piece == [] {
      assert runs + PieceLine(piece) == runs;
    } else {
      assert (runs + PieceLine(piece))[..|runs|] == runs;
    }
  }

  /** The line of a piece shows exactly that piece. */
  lemma PieceLineShows(piece: string)
    ensures RunsText(PieceLine(piece)) == piece
  {
    if piece != [] {
      assert PieceLine(piece)[..0] == [];
    }
  }

  /** The lines made of pieces show those pieces. */
  lemma {:induction false} PieceLinesText(ps: seq<string>)
    ensures Map(RunsText, Map(PieceLine, ps)) == ps
  {
    if ps != [] {
      var init, x := ps[..|ps| - 1], ps[|ps| - 1];
      PieceLinesText(init);
      var ls := Map(PieceLine, init);
      assert Map(PieceLine, ps) == ls + [PieceLine(x)];
      MapSnoc(RunsText, ls, PieceLine(x));
      PieceLineShows(x);
      assert init + [x] == ps;
    }
  }

  /** Inserting t at the end of a text widget adds exactly t to what it shows. */
  lemma InsertShowsText(lines: seq<seq<Run>>, t: string)
    ensures LinesText(InsertText(lines, t)) == LinesText(lines) + t
  {
    var ps := Split(t, '\n');
    var ls := if lines == [] then [[]] else lines;
    var init, last := ls[..|ls| - 1], ls[|ls| - 1];
    var a := Map(RunsText, init);
    assert ls == init + [last];
    MapSnoc(RunsText, init, last);
    assert LinesText(ls) == LinesText(lines) by {
      if lines == [] {
        assert Map(RunsText, ls) == [RunsText([])];
      }
    }
    MapSnoc(RunsText, init, last + PieceLine(ps[0]));
    MapAppend(RunsText, init + [last + PieceLine(ps[0])], Map(PieceLine, ps[1..]));
    PieceLinesText(ps[1..]);
    PieceLineText(last, ps[0]);
    assert Map(RunsText, InsertText(lines, t)) == a + [RunsText(last) + ps[0]] + ps[1..];
    JoinMerge(a, RunsText(last), ps[0], ps[1..], "\n");
    assert [ps[0]] + ps[1..] == ps;
    SplitSpec(t, '\n');
  }

  /** The plain-text widget showing `text`: the stripped text inserted into an empty widget. */
  function PlainView(text: string): Widget {
    TextView(InsertText([], Think.StripThinking(text)))
  }

  /** The plain-text widget shows exactly the stripped text. */
  lemma PlainViewShows(text: string)
    ensures PlainView(text).TextView? && LinesText(PlainView(text).lines) == Think.StripThinking(text)
  {
    InsertShowsText([], Think.StripThinking(text));
  }

  /** `_update_plain_text`: reuse the plain widget, or clear everything and create it. */
  function PlainStep(v: View, text: string): (r: View)
    requires v.plain ==> v.widgets != []
  {
    if v.plain then v.(widgets := v.widgets[0 := PlainView(text)])
    else v.(widgets := [PlainView(text)], plain := true)
  }

  /** `_render_formatted`: every widget replaced by the rendered text; no plain widget. */
  function FullStep(v: View, text: string): View {
    v.(widgets := Rendered(text), plain := false)
  }

  /** A full render that is recorded as the last one. */
  function Rerender(v: View, content: string): View {
    FullStep(v, content).(lastRendered := content, lastTokens := v.tokens)
  }

  /** The text added since the last render: `content[len(last):]`, empty when content is not longer. */
  function Added(content: string, last: string): (t: string)
    ensures |t| == Max(|content| - |last|, 0)
    ensures |last| <= |content| ==> content == content[..|last|] + t
  {
    if |last| <= |content| then
      assert content == content[..|last|] + content[|last|..];
      content[|last|..]
    else []
  }

  /** `insert(END, t, ("normal",))` on a text widget. */
  function AppendText(w: Widget, t: string): (r: Widget)
    requires w.TextView?
    ensures r.TextView? && LinesText(r.lines) == LinesText(w.lines) + t
  {
    InsertShowsText(w.lines, t);
    TextView(InsertText(w.lines, t))
  }

  /** `_incremental_update`. */
  function IncrementalStep(v: View, content: string): View {
    var t := Added(content, v.lastRendered);
    if t == [] then v
    else if Detect.Trigger(t) then Rerender(v, content)
    else if EndsWithText(v.widgets) then
      var n := |v.widgets| - 1;
      v.(widgets := v.widgets[n := AppendText(v.widgets[n], t)], lastRendered := content)
    else Rerender(v, content)
  }

  /** The token estimate of an update: `max(1, (len(content) - old_len) // 4)`. */
  function NewTokens(content: string, previous: string): int {
    // With a positive divisor, Dafny's division rounds down like Python's `//`.
    Max(1, (|content| - |previous|) / 4)
  }

  /**
   * `update_content` while streaming, once the text and the token count are
   * updated: formatting is considered from the threshold on, a formatted
   * message is re-rendered every interval and extended in place in between,
   * and otherwise the plain widget is refreshed.
   */
  function StreamStep(w: View, content: string): View
    requires w.plain ==> w.widgets != []
  {
    if !w.formatted && w.tokens >= RenderThreshold then
      if Detect.Formatted(content) then Rerender(w, content).(formatted := true)
      else PlainStep(w, content)
    else if w.formatted then
      if w.tokens - w.lastTokens >= RerenderInterval then Rerender(w, content)
      else IncrementalStep(w, content)
    else PlainStep(w, content)
  }

  /** `update_content`. */
  function UpdateStep(v: View, content: string): View
    requires Ok(v)
  {
    if content == v.raw then v
    else if !v.streaming then FullStep(v.(raw := content), content).(formatted := true)
    else StreamStep(v.(raw := content, tokens := v.tokens + NewTokens(content, v.raw)), content)
  }

  /** `set_streaming`: when streaming stops, the counters reset and the whole text is rendered. */
  function SetStreamingStep(v: View, streaming: bool): View {
    if v.streaming && !streaming then
      FullStep(v.(streaming := false, tokens := 0, lastTokens := 0), v.raw).(formatted := true)
    else v.(streaming := streaming)
  }

  class MessageRenderer {
    var rawContent: string
    var isStreaming: bool
    var tokenCount: int
    var lastRenderTokenCount: int
    var lastRenderedContent: string
    var formattedMode: bool
    var widgets: seq<Widget>
    var hasPlainWidget: bool

    function State(): View
      reads this
    {
      View(rawContent, isStreaming, tokenCount, lastRenderTokenCount, lastRenderedContent,
        formattedMode, widgets, hasPlainWidget)
    }

    predicate Valid()
      reads this
    {
      Ok(State())
    }

    constructor()
      ensures State() == Initial && Valid()
    {
      rawContent := "";
      isStreaming := false;
      tokenCount := 0;
      lastRenderTokenCount := 0;
      lastRenderedContent := "";
      formattedMode := false;
      widgets := [];
      hasPlainWidget := false;
    }

    /** `_render_formatted`. */
    method RenderFull(text: string)
      modifies this
      ensures State() == FullStep(old(State()), text)
    {
      widgets := RenderFormatted(text);
      hasPlainWidget := false;
    }

    /** `_update_plain_text`. */
    method UpdatePlainText(text: string)
      requires hasPlainWidget ==> widgets != []
      modifies this
      ensures State() == PlainStep(old(State()), text)
    {
      if !hasPlainWidget {
        widgets := [];
        widgets := widgets + [PlainView(text)];
        hasPlainWidget := true;
      } else {
        widgets := widgets[0 := PlainView(text)];
      }
    }

    /** A full render recorded as the last one. */
    method RerenderAll(content: string)
      modifies this
      ensures State() == Rerender(old(State()), content)
    {
      RenderFull(content);
      lastRenderedContent := content;
      lastRenderTokenCount := tokenCount;
    }

    /** `_incremental_update`. */
    method IncrementalUpdate(content: string)
      modifies this
      ensures State() == IncrementalStep(old(State()), content)
    {
      var added := if |lastRenderedContent| <= |content| then content[|lastRenderedContent|..] else [];
      if added == [] {
        return;
      }
      if Detect.Trigger(added) {
        RerenderAll(content);
        return;
      }
      if widgets != [] && widgets[|widgets| - 1].TextView? {
        var n := |widgets| - 1;
        widgets := widgets[n := AppendText(widgets[n], added)];
        lastRenderedContent := content;
      } else {
        RerenderAll(content);
      }
    }

    /** The streaming branch of `update_content`, once the text and the count are updated. */
    method UpdateStreaming(content: string)
      requires hasPlainWidget ==> widgets != []
      modifies this
      ensures State() == StreamStep(old(State()), content)
    {
      if !formattedMode && tokenCount >= RenderThreshold {
        var found := Detect.HasMarkdownFormatting(content);
        if found {
          formattedMode := true;
          RerenderAll(content);
        } else {
          UpdatePlainText(content);
        }
      } else if formattedMode {
        if tokenCount - lastRenderTokenCount >= RerenderInterval {
          RerenderAll(content);
        } else {
          IncrementalUpdate(content);
        }
      } else {
        UpdatePlainText(content);
      }
    }

    /** `update_content`. */
    method UpdateContent(content: string)
      requires Valid()
      modifies this
      ensures State() == UpdateStep(old(State()), content) && Valid()
    {
      OkKept(State(), content, isStreaming);
      if content == rawContent {
        return;
      }
      var oldRaw := rawContent;
      rawContent := content;
      if isStreaming {
        tokenCount := tokenCount + NewTokens(content, oldRaw);
        UpdateStreaming(content);
      } else {
        RenderFull(content);
        formattedMode := true;
      }
    }

    /** `set_streaming`. */
    method SetStreaming(streaming: bool)
      requires Valid()
      modifies this
      ensures State() == SetStreamingStep(old(State()), streaming) && Valid()
    {
      OkKept(State(), rawContent, streaming);
      var wasStreaming := isStreaming;
      isStreaming := streaming;
      if wasStreaming && !streaming {
        tokenCount := 0;
        lastRenderTokenCount := 0;
        RenderFull(rawContent);
        formattedMode := true;
      }
    }
  }

  // ---- Properties ----

  /** Every operation keeps the fields consistent. */
  lemma OkKept(v: View, content: string, streaming: bool)
    requires Ok(v)
    ensures Ok(UpdateStep(v, content)) && Ok(SetStreamingStep(v, streaming))
  {
  }

  /** Only a changed text is an update: the same content leaves everything as it is. */
  lemma SameContentIgnored(v: View)
    requires Ok(v)
    ensures UpdateStep(v, v.raw) == v
  {
  }

  /**
   * While streaming, each update counts a quarter of the characters it adds,
   * rounded down, and exactly one token when that is less than one.
   */
  lemma TokensCounted(v: View, content: string)
    requires Ok(v) && v.streaming && content != v.raw
    ensures var d := UpdateStep(v, content).tokens - v.tokens;
      d >= 1 && 4 * d >= |content| - |v.raw| - 3 && (|content| - |v.raw| >= 4 ==> 4 * d <= |content| - |v.raw|)
    ensures |content| - |v.raw| < 4 ==> UpdateStep(v, content).tokens - v.tokens == 1
  {
  }

  /** Formatted mode, once on, stays on through updates and streaming changes. */
  lemma FormattedSticky(v: View, content: string, streaming: bool)
    requires Ok(v) && v.formatted
    ensures UpdateStep(v, content).formatted && SetStreamingStep(v, streaming).formatted
  {
  }

  /**
   * While streaming, formatted mode switches on only once the threshold is
   * reached and the text shows Markdown, and then it does.
   */
  lemma SwitchToFormatted(v: View, content: string)
    requires Ok(v) && v.streaming && !v.formatted && content != v.raw
    ensures var u := UpdateStep(v, content);
      u.formatted <==> u.tokens >= RenderThreshold && Detect.Formatted(content)
    ensures var u := UpdateStep(v, content);
      u.formatted ==> u.widgets == Rendered(content) && u.lastRendered == content && u.lastTokens == u.tokens
  {
  }

  /** Until then, the only widget is the stripped raw text. */
  lemma PlainUntilFormatted(v: View, content: string)
    requires Ok(v) && v.streaming && !v.formatted && content != v.raw
    ensures var u := UpdateStep(v, content);
      !u.formatted ==> u.plain && u.widgets == [PlainView(content)]
  {
  }

  /**
   * In formatted mode while streaming, an update that brings the count a
   * full interval past the last render renders everything again; after any
   * update the last full render is less than an interval behind, or the
   * structure trigger or a missing text widget forced one.
   */
  lemma RerenderEveryInterval(v: View, content: string)
    requires Ok(v) && v.streaming && v.formatted && content != v.raw
    ensures var u := UpdateStep(v, content);
      u.tokens - v.lastTokens >= RerenderInterval ==>
        u.widgets == Rendered(content) && u.lastRendered == content && u.lastTokens == u.tokens
    ensures var u := UpdateStep(v, content);
      u.tokens - u.lastTokens < RerenderInterval
  {
  }

  /** New structure in the streamed text (a fence, a heading, a list item, a table line) forces a full render. */
  lemma TriggerRerenders(v: View, content: string)
    requires Ok(v) && v.streaming && v.formatted && content != v.raw
    requires Detect.Trigger(Added(content, v.lastRendered))
    ensures UpdateStep(v, content).widgets == Rendered(content)
    ensures UpdateStep(v, content).lastRendered == content
  {
  }

  /**
   * Otherwise the added text is appended, in the normal style, to the end of
   * the last text widget, and every other widget stays as it was.
   */
  lemma AddedTextAppended(v: View, content: string)
    requires Ok(v) && v.streaming && v.formatted && content != v.raw
    requires v.tokens + NewTokens(content, v.raw) - v.lastTokens < RerenderInterval
    requires Added(content, v.lastRendered) != [] && !Detect.Trigger(Added(content, v.lastRendered))
    requires EndsWithText(v.widgets)
    ensures var u := UpdateStep(v, content); var n := |v.widgets| - 1;
      |u.widgets| == |v.widgets| && u.widgets[..n] == v.widgets[..n] && u.widgets[n].TextView? &&
      LinesText(u.widgets[n].lines) == LinesText(v.widgets[n].lines) + Added(content, v.lastRendered)
    ensures UpdateStep(v, content).lastRendered == content
  {
  }

  /** When streaming stops the counters reset and the whole message is rendered, formatted. */
  lemma StopRendersAll(v: View)
    requires Ok(v) && v.streaming
    ensures var u := SetStreamingStep(v, false);
      u.tokens == 0 && u.lastTokens == 0 && u.formatted && !u.streaming &&
      u.widgets == Rendered(v.raw) && !u.plain
  {
  }

  /** Outside streaming every change is rendered in full. */
  lemma IdleRendersAll(v: View, content: string)
    requires Ok(v) && !v.streaming && content != v.raw
    ensures UpdateStep(v, content).widgets == Rendered(content) && UpdateStep(v, content).formatted
  {
  }
}
