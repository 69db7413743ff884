/**
 * `process_inline_formatting_html`: the inline Markdown of one table cell
 * turned into HTML. The text is escaped first, then eight regular-expression
 * substitutions run in a fixed order, each on the result of the previous one.
 */
module InlineHtml {
  import opened Text
  import opened HtmlEscape
  import opened Scan

  /** The matches lie inside s, in order and without overlapping. */
  predicate Laid(s: string, ms: seq<Match>) {
    (forall i :: 0 <= i < |ms| ==>
      ms[i].start < ms[i].groupStart <= ms[i].groupEnd < ms[i].end <= |s|) &&
    (forall i, j :: 0 <= i < j < |ms| ==> ms[i].end <= ms[j].start)
  }

  /** The splice may resume at pos with match i next. */
  predicate At(s: string, ms: seq<Match>, i: nat, pos: nat) {
    Laid(s, ms) && i <= |ms| && pos <= |s| && (i < |ms| ==> pos <= ms[i].start)
  }

  lemma FindAllLaid(s: string, ds: seq<Delimited>, p: nat)
    requires AllValid(ds) && p <= |s|
    ensures Laid(s, FindAll(s, ds, p))
  {
    var ms := FindAll(s, ds, p);
    FindAllOk(s, ds, p);
    forall i | 0 <= i < |ms|
      ensures ms[i].start < ms[i].groupStart <= ms[i].groupEnd < ms[i].end <= |s|
    {
      FindAllAt(s, ds, p, i);
    }
  }

  /** What replaces a match: its group between two fixed strings, or the bold handler. */
  datatype Repl = Wrap(before: string, after: string) | BoldHandler

  function Rank(r: Repl): nat {
    if r.BoldHandler? then 1 else 0
  }

  /** The replacement of one match whose group is g. */
  function Apply(r: Repl, g: string): string
    decreases Rank(r), 1, 0
  {
    match r
    case Wrap(before, after) => before + g + after
    case BoldHandler => BoldInner(g)
  }

  /**
   * `handle_bold`: the single-marker italics inside the group become `<em>`,
   * and the whole is put in `<strong>`.
   */
  function BoldInner(g: string): string
    decreases 1, 0, 0
  {
    "<strong>" + Sub(Sub(g, InnerStar, Wrap("<em>", "</em>")), InnerUnder, Wrap("<em>", "</em>")) + "</strong>"
  }

  /**
   * The substitution itself, from match i on: the text between matches is
   * copied and every match is replaced according to r.
   */
  function Splice(s: string, ms: seq<Match>, i: nat, pos: nat, r: Repl): string
    requires At(s, ms, i, pos)
    decreases Rank(r), 1, |ms| - i
  {
    if i == |ms| then s[pos..]
    else
      var m := ms[i];
      s[pos..m.start] + Apply(r, s[m.groupStart..m.groupEnd]) + Splice(s, ms, i + 1, m.end, r)
  }

  /** `re.sub(pattern, repl, s)` for a delimited pattern. */
  function Sub(s: string, d: Delimited, r: Repl): string
    requires ValidPattern(d)
    decreases Rank(r), 2, 0
  {
    FindAllLaid(s, [d], 0);
    Splice(s, FindAll(s, [d], 0), 0, 0, r)
  }

  /** Replacing each match by its own markers around its group gives back the text. */
  lemma {:induction false} SpliceRestores(s: string, d: Delimited, ms: seq<Match>, i: nat, pos: nat)
    requires At(s, ms, i, pos)
    requires forall j :: 0 <= j < |ms| ==> Framed(s, d, ms[j])
    ensures Splice(s, ms, i, pos, Wrap(d.open, d.close)) == s[pos..]
    decreases |ms| - i
  {
    if i < |ms| {
      var m := ms[i];
      var w := Wrap(d.open, d.close);
      SpliceRestores(s, d, ms, i + 1, m.end);
      assert Splice(s, ms, i, pos, w) == s[pos..m.start] + Apply(w, s[m.groupStart..m.groupEnd]) + s[m.end..];
      assert Framed(s, d, m);
      SliceParts(s, pos, m.start, m.groupStart, m.groupEnd, m.end);
    }
  }

  /**
   * The substitution loses nothing: putting each group back between its markers
   * rebuilds the text it was applied to.
   */
  lemma SubRestores(s: string, d: Delimited)
    requires ValidPattern(d)
    ensures Sub(s, d, Wrap(d.open, d.close)) == s
  {
    var ms := FindAll(s, [d], 0);
    FindAllLaid(s, [d], 0);
    FindAllOk(s, [d], 0);
    forall j | 0 <= j < |ms| ensures Framed(s, d, ms[j]) {
      FindAllAt(s, [d], 0, j);
      FoundFramed(s, d, ms[j]);
    }
    SpliceRestores(s, d, ms, 0, 0);
  }

  /** A pattern whose opening character does not occur leaves the text unchanged. */
  lemma SubAbsent(s: string, d: Delimited, r: Repl)
    requires ValidPattern(d) && d.open[0] !in s
    ensures Sub(s, d, r) == s
  {
    assert s[0..] == s;
    NoOpenNoMatch(s, [d], 0);
  }

  // The patterns, in the order the substitutions run.

  const StarBoldItalic := Delimited("***", "***", {'\n'}, {}, {})
  const UnderBoldItalic := Delimited("___", "___", {'\n'}, {}, {})
  const StarBold := Delimited("**", "**", {'\n'}, {}, {})
  const UnderBold := Delimited("__", "__", {'\n'}, {}, {})
  const StarItalic := Delimited("*", "*", {'*', '\n'}, {'*'}, {'*'})
  const UnderItalic := Delimited("_", "_", {'_', '\n'}, {'_'}, {'_'})
  const Strike := Delimited("~~", "~~", {'\n'}, {}, {})
  const Code := Delimited("`", "`", {'`'}, {}, {})
  /** The italic patterns applied inside a bold span (no newline ban, no look-around). */
  const InnerStar := Delimited("*", "*", {'*'}, {}, {})
  const InnerUnder := Delimited("_", "_", {'_'}, {}, {})

  /** One substitution: a pattern and what replaces each of its matches. */
  datatype Stage = Stage(pattern: Delimited, repl: Repl)

  predicate StagesValid(stages: seq<Stage>) {
    forall i :: 0 <= i < |stages| ==> ValidPattern(stages[i].pattern)
  }

  /** The substitutions applied one after the other. */
  function Pipeline(s: string, stages: seq<Stage>): string
    requires StagesValid(stages)
    decreases |stages|
  {
    if stages == [] then s
    else Pipeline(Sub(s, stages[0].pattern, stages[0].repl), stages[1..])
  }

  /** The eight substitutions of the cell formatter, in the order they run. */
  const CellStages: seq<Stage> := [
    Stage(StarBoldItalic, Wrap("<strong><em>", "</em></strong>")),
    Stage(UnderBoldItalic, Wrap("<strong><em>", "</em></strong>")),
    Stage(StarBold, BoldHandler),
    Stage(UnderBold, BoldHandler),
    Stage(StarItalic, Wrap("<em>", "</em>")),
    Stage(UnderItalic, Wrap("<em>", "</em>")),
    Stage(Strike, Wrap("<del>", "</del>")),
    Stage(Code, Wrap("<code>", "</code>"))
  ]

  lemma CellStagesShape()
    ensures StagesValid(CellStages)
  {
  }

  /** `process_inline_formatting_html` */
  function InlineFormat(text: string): string {
    CellStagesShape();
    Pipeline(Escape(text), CellStages)
  }

  /** A substitution whose pattern opens with an absent character changes nothing. */
  lemma {:induction false} PipelineSkips(s: string, stages: seq<Stage>)
    requires StagesValid(stages)
    requires forall i :: 0 <= i < |stages| ==> stages[i].pattern.open[0] !in s
    ensures Pipeline(s, stages) == s
  {
    if stages != [] {
      SubAbsent(s, stages[0].pattern, stages[0].repl);
      PipelineSkips(s, stages[1..]);
    }
  }

  /** The cell substitutions leave a text without marker characters unchanged. */
  lemma CellStagesSkip(r: string)
    requires '*' !in r && '_' !in r && '~' !in r && '`' !in r
    ensures Pipeline(r, CellStages) == r
  {
    CellStagesShape();
    forall i | 0 <= i < |CellStages| ensures CellStages[i].pattern.open[0] !in r {
      var c := CellStages[i].pattern.open[0];
      assert c == '*' || c == '_' || c == '~' || c == '`';
    }
    PipelineSkips(r, CellStages);
  }

  /** Escaping introduces no marker character. */
  lemma EscapeUnmarked(text: string)
    requires '*' !in text && '_' !in text && '~' !in text && '`' !in text
    ensures var r := Escape(text); '*' !in r && '_' !in r && '~' !in r && '`' !in r
  {
    EscapeChars(text, '*');
    EscapeChars(text, '_');
    EscapeChars(text, '~');
    EscapeChars(text, '`');
  }

  /** A cell without any marker character is only escaped. */
  lemma PlainCell(text: string)
    requires '*' !in text && '_' !in text && '~' !in text && '`' !in text
    ensures InlineFormat(text) == Escape(text)
  {
    var r := Escape(text);
    assert InlineFormat(text) == Pipeline(r, CellStages);
    EscapeUnmarked(text);
    CellStagesSkip(r);
  }
}

/**
 * The cell formatter cannot be used to inject markup: the text is escaped
 * before any substitution runs, so every '<' of the result opens one of the
 * tags the substitutions themselves write.
 */
module InlineHtmlSafety {
  import opened Text
  import opened HtmlEscape
  import opened Scan
  import opened InlineHtml

  /** The tags the cell formatter writes. */
  const Tags: seq<string> := ["<strong>", "</strong>", "<em>", "</em>", "<del>", "</del>", "<code>", "</code>"]

  /** A character some inline pattern starts or ends with. */
  predicate Marker(c: char) {
    c == '*' || c == '_' || c == '~' || c == '`'
  }

  predicate Unmarked(t: string) {
    forall j :: 0 <= j < |t| ==> !Marker(t[j])
  }

  lemma TagsUnmarked()
    ensures forall i :: 0 <= i < |Tags| ==> Unmarked(Tags[i])
  {
  }

  /** A tag starts at k. */
  ghost predicate TagAt(r: string, k: int) {
    exists i :: 0 <= i < |Tags| && OccursAt(r, Tags[i], k)
  }

  /** Every '<' of r opens a tag. */
  ghost predicate Safe(r: string) {
    forall k :: 0 <= k < |r| && r[k] == '<' ==> TagAt(r, k)
  }

  lemma SafeNoLt(r: string)
    requires forall k :: 0 <= k < |r| ==> r[k] != '<'
    ensures Safe(r)
  {
  }

  lemma OccursLeft(a: string, b: string, t: string, k: int)
    requires OccursAt(a, t, k)
    ensures OccursAt(a + b, t, k)
  {
    assert (a + b)[k..k + |t|] == a[k..k + |t|];
  }

  lemma OccursRight(a: string, b: string, t: string, k: int)
    requires OccursAt(b, t, k)
    ensures OccursAt(a + b, t, |a| + k)
  {
    assert (a + b)[|a| + k..|a| + k + |t|] == b[k..k + |t|];
  }

  lemma SafeConcat(a: string, b: string)
    requires Safe(a) && Safe(b)
    ensures Safe(a + b)
  {
    forall k | 0 <= k < |a + b| && (a + b)[k] == '<' ensures TagAt(a + b, k) {
      if k < |a| {
        assert a[k] == '<';
        var i :| 0 <= i < |Tags| && OccursAt(a, Tags[i], k);
        OccursLeft(a, b, Tags[i], k);
      } else {
        assert b[k - |a|] == '<';
        var i :| 0 <= i < |Tags| && OccursAt(b, Tags[i], k - |a|);
        OccursRight(a, b, Tags[i], k - |a|);
      }
    }
  }

  lemma SafeConcat3(a: string, b: string, c: string)
    requires Safe(a) && Safe(b) && Safe(c)
    ensures Safe(a + b + c)
  {
    SafeConcat(a, b);
    SafeConcat(a + b, c);
  }

  /** A tag that starts before a marker character ends before it. */
  lemma TagFits(s: string, t: string, p: int, hi: int)
    requires OccursAt(s, t, p) && Unmarked(t)
    requires p < hi <= |s| && (hi == |s| || Marker(s[hi]))
    ensures p + |t| <= hi
  {
  }

  /** Cutting a safe text just before a marker character keeps it safe. */
  lemma SafeSlice(s: string, lo: int, hi: int)
    requires Safe(s) && 0 <= lo <= hi <= |s|
    requires hi == |s| || Marker(s[hi])
    ensures Safe(s[lo..hi])
  {
    var u := s[lo..hi];
    forall k | 0 <= k < |u| && u[k] == '<' ensures TagAt(u, k) {
      assert s[lo + k] == '<';
      var i :| 0 <= i < |Tags| && OccursAt(s, Tags[i], lo + k);
      TagsUnmarked();
      TagFits(s, Tags[i], lo + k, hi);
      SliceOfSlice(s, lo, hi, k, k + |Tags[i]|);
      assert OccursAt(u, Tags[i], k);
    }
  }

  /** The patterns start and end with a marker character. */
  predicate MarkerPattern(d: Delimited) {
    ValidPattern(d) && Marker(d.open[0]) && Marker(d.close[0])
  }

  /** A replacement whose fixed parts are safe. */
  ghost predicate SafeRepl(r: Repl) {
    r.Wrap? ==> Safe(r.before) && Safe(r.after)
  }

  lemma FramedMarkers(s: string, d: Delimited, m: Match)
    requires MarkerPattern(d) && Framed(s, d, m)
    ensures Marker(s[m.start]) && Marker(s[m.groupEnd])
  {
    assert s[m.start] == s[m.start..m.groupStart][0];
    assert s[m.groupEnd] == s[m.groupEnd..m.end][0];
  }

  lemma {:induction false} SpliceSafe(s: string, d: Delimited, ms: seq<Match>, i: nat, pos: nat, r: Repl)
    requires At(s, ms, i, pos) && Safe(s) && MarkerPattern(d) && SafeRepl(r)
    requires forall j :: 0 <= j < |ms| ==> Framed(s, d, ms[j])
    ensures Safe(Splice(s, ms, i, pos, r))
    decreases Rank(r), 1, |ms| - i
  {
    if i == |ms| {
      SafeSlice(s, pos, |s|);
      assert s[pos..|s|] == s[pos..];
    } else {
      var m := ms[i];
      var g := s[m.groupStart..m.groupEnd];
      FramedMarkers(s, d, m);
      SafeSlice(s, pos, m.start);
      SafeSlice(s, m.groupStart, m.groupEnd);
      ApplySafe(r, g);
      SpliceSafe(s, d, ms, i + 1, m.end, r);
      SafeConcat3(s[pos..m.start], Apply(r, g), Splice(s, ms, i + 1, m.end, r));
      assert Splice(s, ms, i, pos, r) == s[pos..m.start] + Apply(r, g) + Splice(s, ms, i + 1, m.end, r);
    }
  }

  lemma ApplySafe(r: Repl, g: string)
    requires Safe(g) && SafeRepl(r)
    ensures Safe(Apply(r, g))
    decreases Rank(r), 0, 0
  {
    match r
    case Wrap(before, after) =>
      SafeConcat3(before, g, after);
    case BoldHandler =>
      EmSafe();
      StrongSafe();
      SubSafe(g, InnerStar, Wrap("<em>", "</em>"));
      var g1 := Sub(g, InnerStar, Wrap("<em>", "</em>"));
      SubSafe(g1, InnerUnder, Wrap("<em>", "</em>"));
      SafeConcat3("<strong>", Sub(g1, InnerUnder, Wrap("<em>", "</em>")), "</strong>");
  }

  lemma SubSafe(s: string, d: Delimited, r: Repl)
    requires Safe(s) && MarkerPattern(d) && SafeRepl(r)
    ensures Safe(Sub(s, d, r))
    decreases Rank(r), 2, 0
  {
    var ms := FindAll(s, [d], 0);
    FindAllLaid(s, [d], 0);
    FindAllOk(s, [d], 0);
    forall j | 0 <= j < |ms| ensures Framed(s, d, ms[j]) {
      FindAllAt(s, [d], 0, j);
      FoundFramed(s, d, ms[j]);
    }
    SpliceSafe(s, d, ms, 0, 0, r);
  }

  lemma TagSafe(i: nat)
    requires i < |Tags|
    ensures Safe(Tags[i])
  {
    var t := Tags[i];
    forall k | 0 <= k < |t| && t[k] == '<' ensures TagAt(t, k) {
      assert k == 0;
      assert OccursAt(t, Tags[i], 0);
    }
  }

  lemma EmSafe()
    ensures Safe("<em>") && Safe("</em>")
  {
    TagSafe(2);
    TagSafe(3);
  }

  lemma StrongSafe()
    ensures Safe("<strong>") && Safe("</strong>")
  {
    TagSafe(0);
    TagSafe(1);
  }

  lemma DelCodeSafe()
    ensures Safe("<del>") && Safe("</del>") && Safe("<code>") && Safe("</code>")
  {
    TagSafe(4);
    TagSafe(5);
    TagSafe(6);
    TagSafe(7);
  }

  lemma StrongEmSafe()
    ensures Safe("<strong><em>") && Safe("</em></strong>")
  {
    StrongSafe();
    EmSafe();
    SafeConcat("<strong>", "<em>");
    assert "<strong>" + "<em>" == "<strong><em>";
    SafeConcat("</em>", "</strong>");
    assert "</em>" + "</strong>" == "</em></strong>";
  }

  ghost predicate StageOk(st: Stage) {
    MarkerPattern(st.pattern) && SafeRepl(st.repl)
  }

  lemma {:induction false} PipelineSafe(s: string, stages: seq<Stage>)
    requires Safe(s) && forall i :: 0 <= i < |stages| ==> StageOk(stages[i])
    ensures StagesValid(stages) && Safe(Pipeline(s, stages))
    decreases |stages|
  {
    if stages != [] {
      SubSafe(s, stages[0].pattern, stages[0].repl);
      PipelineSafe(Sub(s, stages[0].pattern, stages[0].repl), stages[1..]);
    }
  }

  lemma CellStagesOk()
    ensures forall i :: 0 <= i < |CellStages| ==> StageOk(CellStages[i])
  {
    StrongEmSafe();
    EmSafe();
    DelCodeSafe();
  }

  /**
   * Whatever the cell holds, every '<' in its HTML opens one of the tags
   * `<strong>`, `<em>`, `<del>`, `<code>` or their closing forms.
   */
  lemma InlineFormatSafe(text: string)
    ensures Safe(InlineFormat(text))
  {
    SafeNoLt(Escape(text));
    CellStagesOk();
    PipelineSafe(Escape(text), CellStages);
  }
}
