/**
 * `InlineFormatter`: how one line of a message is cut into styled segments
 * for the text widget. Every pattern of the table is searched over the whole
 * line, the matches are ordered by start (longest first), a greedy pass keeps
 * those that do not overlap an already kept one, and the kept spans and the
 * text between them become the segments. The content of a bold span is cut
 * once more for single-marker italics.
 */
module Segments {
  import opened Text
  import opened Scan

  datatype Tag = Underline | BoldItalic | Bold | Italic | Strikethrough | InlineCode

  /** One entry of the pattern table: what it matches and the style it gives. */
  datatype Rule = Rule(pattern: Delimited, tag: Tag)

  /** The pattern table, in its order (which decides ties). */
  const Rules: seq<Rule> := [
    Rule(Delimited("**_", "_**", {'\n'}, {}, {}), Underline),
    Rule(Delimited("__*", "*__", {'\n'}, {}, {}), Underline),
    Rule(Delimited("***", "***", {'\n'}, {}, {}), BoldItalic),
    Rule(Delimited("___", "___", {'\n'}, {}, {}), BoldItalic),
    Rule(Delimited("**", "**", {'\n'}, {}, {}), Bold),
    Rule(Delimited("__", "__", {'\n'}, {}, {}), Bold),
    Rule(Delimited("*", "*", {'*'}, {'*'}, {'*'}), Italic),
    Rule(Delimited("_", "_", {'_'}, {'_'}, {'_'}), Italic),
    Rule(Delimited("~~", "~~", {'\n'}, {}, {}), Strikethrough),
    Rule(Delimited("<u>", "</u>", {'\n'}, {}, {}), Underline),
    Rule(Delimited("`", "`", {'`'}, {}, {}), InlineCode)
  ]

  /** The alternation `\*([^*]+)\*|_([^_]+)_` used inside bold spans. */
  const NestedItalics: seq<Delimited> := [
    Delimited("*", "*", {'*'}, {}, {}),
    Delimited("_", "_", {'_'}, {}, {})
  ]

  lemma PatternsValid()
    ensures forall i :: 0 <= i < |Rules| ==> ValidPattern(Rules[i].pattern)
    ensures AllValid(NestedItalics)
  {
  }

  /** A candidate span: a match, its style, and the index of the rule that found it. */
  datatype Event = Event(m: Match, tag: Tag, rank: nat)

  /** The events of rule i, in the order `finditer` yields them. */
  function RuleEvents(text: string, i: nat): (es: seq<Event>)
    requires i < |Rules|
    ensures PatternsOk() && ValidPattern(Rules[i].pattern)
    ensures |es| == |FindAll(text, [Rules[i].pattern], 0)|
    ensures forall j :: 0 <= j < |es| ==> es[j] == Event(FindAll(text, [Rules[i].pattern], 0)[j], Rules[i].tag, i)
  {
    PatternsValid();
    var ms := FindAll(text, [Rules[i].pattern], 0);
    seq(|ms|, j requires 0 <= j < |ms| => Event(ms[j], Rules[i].tag, i))
  }

  /** Each event of rule i is framed by the rule's markers, and they come in order without overlapping. */
  lemma RuleEventsOk(text: string, i: nat)
    requires i < |Rules|
    ensures forall j :: 0 <= j < |RuleEvents(text, i)| ==> EventOk(text, RuleEvents(text, i)[j]) && RuleEvents(text, i)[j].rank == i
    ensures forall j, k :: 0 <= j < k < |RuleEvents(text, i)| ==> RuleEvents(text, i)[j].m.end <= RuleEvents(text, i)[k].m.start
  {
    var es := RuleEvents(text, i);
    var ms := FindAll(text, [Rules[i].pattern], 0);
    FindAllOk(text, [Rules[i].pattern], 0);
    forall j | 0 <= j < |es| ensures EventOk(text, es[j]) {
      FindAllAt(text, [Rules[i].pattern], 0, j);
      FoundFramed(text, Rules[i].pattern, ms[j]);
    }
  }

  /** An event as some rule of the table found it. */
  predicate EventOk(text: string, e: Event) {
    e.rank < |Rules| && e.tag == Rules[e.rank].tag && Framed(text, Rules[e.rank].pattern, e.m)
  }

  /** The events of the first n rules, rule by rule. */
  function EventsUpTo(text: string, n: nat): seq<Event>
    requires n <= |Rules|
  {
    if n == 0 then [] else EventsUpTo(text, n - 1) + RuleEvents(text, n - 1)
  }

  /** Event j of the first n rules is one some rule among them found. */
  lemma {:induction false} EventsUpToAt(text: string, n: nat, j: int)
    requires n <= |Rules| && 0 <= j < |EventsUpTo(text, n)|
    ensures EventOk(text, EventsUpTo(text, n)[j]) && EventsUpTo(text, n)[j].rank < n
  {
    var prev := EventsUpTo(text, n - 1);
    var own := RuleEvents(text, n - 1);
    assert EventsUpTo(text, n) == prev + own;
    if j < |prev| {
      assert EventsUpTo(text, n)[j] == prev[j];
      EventsUpToAt(text, n - 1, j);
    } else {
      assert EventsUpTo(text, n)[j] == own[j - |prev|];
      RuleEventAt(text, n - 1, j - |prev|);
    }
  }

  lemma RuleEventAt(text: string, i: nat, j: int)
    requires i < |Rules| && 0 <= j < |RuleEvents(text, i)|
    ensures EventOk(text, RuleEvents(text, i)[j]) && RuleEvents(text, i)[j].rank == i
  {
    RuleEventsOk(text, i);
  }

  /** Every collected event is one some rule of the table found, among the first n. */
  lemma EventsUpToOk(text: string, n: nat)
    requires n <= |Rules|
    ensures forall j :: 0 <= j < |EventsUpTo(text, n)| ==>
      EventOk(text, EventsUpTo(text, n)[j]) && EventsUpTo(text, n)[j].rank < n
  {
    forall j | 0 <= j < |EventsUpTo(text, n)| ensures EventOk(text, EventsUpTo(text, n)[j]) && EventsUpTo(text, n)[j].rank < n {
      EventsUpToAt(text, n, j);
    }
  }

  /** All events of the line, in the order the source collects them. */
  function AllEvents(text: string): seq<Event> {
    EventsUpTo(text, |Rules|)
  }

  /** Two different events never share start, end and rule. */
  lemma {:induction false} EventKeysDistinct(text: string, n: nat, a: int, b: int)
    requires n <= |Rules|
    requires 0 <= a < b < |EventsUpTo(text, n)|
    ensures var es := EventsUpTo(text, n);
      es[a].m.start != es[b].m.start || es[a].rank != es[b].rank
  {
    var es := EventsUpTo(text, n);
    var prev := EventsUpTo(text, n - 1);
    var own := RuleEvents(text, n - 1);
    if b < |prev| {
      EventKeysDistinct(text, n - 1, a, b);
    } else if a < |prev| {
      EventsUpToOk(text, n - 1);
      assert es[a] == prev[a] && es[b] == own[b - |prev|];
    } else {
      RuleEventsIncreasing(text, n - 1, a - |prev|, b - |prev|);
    }
  }

  /** The events of one rule start strictly later and later. */
  lemma RuleEventsIncreasing(text: string, i: nat, a: int, b: int)
    requires i < |Rules|
    requires 0 <= a < b < |RuleEvents(text, i)|
    ensures RuleEvents(text, i)[a].m.start < RuleEvents(text, i)[b].m.start
  {
    RuleEventsOk(text, i);
    assert EventOk(text, RuleEvents(text, i)[a]);
  }

  // ---- Ordering: `events.sort(key=lambda x: (x[0], -x[1]))` ----

  /** a comes strictly before b: earlier start, then longer, then earlier rule. */
  predicate Before(a: Event, b: Event) {
    a.m.start < b.m.start ||
    (a.m.start == b.m.start && (a.m.end > b.m.end || (a.m.end == b.m.end && a.rank < b.rank)))
  }

  predicate Sorted(es: seq<Event>) {
    forall i, j :: 0 <= i < j < |es| ==> !Before(es[j], es[i])
  }

  function Insert(e: Event, es: seq<Event>): (r: seq<Event>)
    ensures multiset(r) == multiset(es) + multiset{e}
    ensures |r| == |es| + 1
  {
    if es == [] || Before(e, es[0]) then [e] + es
    else
      assert es == [es[0]] + es[1..];
      [es[0]] + Insert(e, es[1..])
  }

  /** The sorted order: an insertion sort by (start, -end, rule). */
  function SortEvents(es: seq<Event>): (r: seq<Event>)
    ensures multiset(r) == multiset(es)
    ensures |r| == |es|
  {
    if es == [] then []
    else
      assert es == [es[0]] + es[1..];
      Insert(es[0], SortEvents(es[1..]))
  }

  lemma {:induction false} InsertSorted(e: Event, es: seq<Event>)
    requires Sorted(es)
    ensures Sorted(Insert(e, es))
  {
    if es == [] || Before(e, es[0]) {
      var r := [e] + es;
      forall i, j | 0 <= i < j < |r| ensures !Before(r[j], r[i]) {
        if i == 0 && j > 1 {
          assert !Before(es[j - 1], es[0]);
        }
      }
    } else {
      InsertSorted(e, es[1..]);
      var t := Insert(e, es[1..]);
      var r := [es[0]] + t;
      forall k | 0 <= k < |t| ensures !Before(t[k], es[0]) {
        assert t[k] in multiset(t);
        assert t[k] == e || t[k] in multiset(es[1..]);
        if t[k] != e {
          var j :| 0 <= j < |es[1..]| && es[1..][j] == t[k];
          assert es[j + 1] == t[k];
        }
      }
      forall i, j | 0 <= i < j < |r| ensures !Before(r[j], r[i]) {
        if i == 0 {
          assert r[j] == t[j - 1];
        } else {
          assert r[i] == t[i - 1] && r[j] == t[j - 1];
        }
      }
    }
  }

  /** The sort puts the events in order and keeps every one of them. */
  lemma {:induction false} SortEventsSorted(es: seq<Event>)
    ensures Sorted(SortEvents(es)) && multiset(SortEvents(es)) == multiset(es)
  {
    if es != [] {
      SortEventsSorted(es[1..]);
      InsertSorted(es[0], SortEvents(es[1..]));
    }
  }

  // ---- The greedy pass over the sorted events ----

  /** The spans of a and b share a character (the source's overlap test). */
  predicate Overlap(a: Event, b: Event) {
    a.m.start < b.m.end && a.m.end > b.m.start
  }

  predicate OverlapsAny(e: Event, kept: seq<Event>) {
    exists j :: 0 <= j < |kept| && Overlap(e, kept[j])
  }

  /** The kept events: each event in turn, unless it overlaps one kept before it. */
  function Greedy(es: seq<Event>): (kept: seq<Event>)
    decreases |es|
  {
    if es == [] then []
    else
      var prev := Greedy(es[..|es| - 1]);
      var e := es[|es| - 1];
      if OverlapsAny(e, prev) then prev else prev + [e]
  }

  /** The pass only ever appends: what is kept from a prefix stays kept. */
  lemma {:induction false} GreedyPrefix(es: seq<Event>, n: nat)
    requires n <= |es|
    ensures Greedy(es[..n]) <= Greedy(es)
    decreases |es| - n
  {
    if n == |es| {
      assert es[..n] == es;
    } else {
      var init := es[..|es| - 1];
      assert init[..n] == es[..n];
      GreedyPrefix(init, n);
      assert Greedy(init) <= Greedy(es);
    }
  }

  /** No two kept events overlap. */
  lemma {:induction false} GreedyDisjoint(es: seq<Event>)
    ensures forall i, j :: 0 <= i < j < |Greedy(es)| ==> !Overlap(Greedy(es)[j], Greedy(es)[i])
    decreases |es|
  {
    if es != [] {
      var init := es[..|es| - 1];
      GreedyDisjoint(init);
      var prev := Greedy(init);
      var e := es[|es| - 1];
      if !OverlapsAny(e, prev) {
        var k := prev + [e];
        forall i, j | 0 <= i < j < |k| ensures !Overlap(k[j], k[i]) {
          if j == |prev| {
            assert k[j] == e && k[i] == prev[i];
          } else {
            assert k[j] == prev[j] && k[i] == prev[i];
          }
        }
      }
    }
  }

  /** Every kept event is one of the candidates. */
  lemma {:induction false} GreedyFromInput(es: seq<Event>)
    ensures forall i :: 0 <= i < |Greedy(es)| ==> Greedy(es)[i] in es
    decreases |es|
  {
    if es != [] {
      var init := es[..|es| - 1];
      GreedyFromInput(init);
      var prev := Greedy(init);
      var k := Greedy(es);
      forall i | 0 <= i < |k| ensures k[i] in es {
        if i < |prev| {
          assert k[i] == prev[i];
          var j :| 0 <= j < |init| && init[j] == prev[i];
          assert es[j] == init[j];
        } else {
          assert k[i] == es[|es| - 1];
        }
      }
    }
  }

  /** The pass is maximal: every candidate is kept or overlaps a kept event. */
  lemma {:induction false} GreedyMaximal(es: seq<Event>, i: int)
    requires 0 <= i < |es|
    ensures es[i] in Greedy(es) || OverlapsAny(es[i], Greedy(es))
  {
    var k := Greedy(es);
    var pre := Greedy(es[..i + 1]);
    GreedyPrefix(es, i + 1);
    assert es[..i + 1][..i] == es[..i];
    if es[i] in pre {
      var j :| 0 <= j < |pre| && pre[j] == es[i];
      assert k[j] == es[i];
    } else {
      var j :| 0 <= j < |Greedy(es[..i])| && Overlap(es[i], Greedy(es[..i])[j]);
      assert pre[j] == Greedy(es[..i])[j];
      assert k[j] == pre[j];
    }
  }

  /** Kept from a sorted list, the events stay sorted. */
  lemma {:induction false} GreedySorted(es: seq<Event>)
    requires Sorted(es)
    ensures Sorted(Greedy(es))
    decreases |es|
  {
    if es != [] {
      var init := es[..|es| - 1];
      assert Sorted(init);
      GreedySorted(init);
      GreedyFromInput(init);
      var prev := Greedy(init);
      var e := es[|es| - 1];
      forall i | 0 <= i < |prev| ensures !Before(e, prev[i]) {
        assert prev[i] in init;
        var j :| 0 <= j < |init| && init[j] == prev[i];
        assert es[j] == prev[i];
      }
      var k := Greedy(es);
      forall i, j | 0 <= i < j < |k| ensures !Before(k[j], k[i]) {
        if j < |prev| {
          assert k[j] == prev[j] && k[i] == prev[i];
        } else {
          assert k[j] == e && k[i] == prev[i];
        }
      }
    }
  }

  /** The sorted candidates and what the greedy pass keeps of them. */
  function Candidates(text: string): (es: seq<Event>)
    ensures Sorted(es) && multiset(es) == multiset(AllEvents(text))
  {
    SortEventsSorted(AllEvents(text));
    SortEvents(AllEvents(text))
  }

  function Kept(text: string): seq<Event> {
    Greedy(Candidates(text))
  }

  // ---- Laying the kept spans over the line ----

  /** The events lie inside text, in order and without overlapping, each with a non-empty group. */
  predicate Spans(text: string, ks: seq<Event>) {
    (forall i :: 0 <= i < |ks| ==>
      ks[i].m.start < ks[i].m.groupStart < ks[i].m.groupEnd < ks[i].m.end <= |text|) &&
    (forall i, j :: 0 <= i < j < |ks| ==> ks[i].m.end <= ks[j].m.start)
  }

  /** The kept events of a line satisfy `Spans`: the pass leaves them in order and apart. */
  lemma KeptSpans(text: string)
    ensures Spans(text, Kept(text))
    ensures forall i :: 0 <= i < |Kept(text)| ==> EventOk(text, Kept(text)[i])
  {
    var es := Candidates(text);
    var k := Kept(text);
    GreedyFromInput(es);
    GreedyDisjoint(es);
    GreedySorted(es);
    EventsUpToOk(text, |Rules|);
    forall i | 0 <= i < |k| ensures EventOk(text, k[i]) {
      assert k[i] in es;
      assert k[i] in multiset(es);
      assert k[i] in multiset(AllEvents(text));
      var j :| 0 <= j < |AllEvents(text)| && AllEvents(text)[j] == k[i];
    }
    forall i, j | 0 <= i < j < |k| ensures k[i].m.end <= k[j].m.start {
      assert !Overlap(k[j], k[i]);
      assert !Before(k[j], k[i]);
    }
  }

  /** A piece of the line: text outside every kept span, or a kept span cut into markers and content. */
  datatype Piece = Gap(text: string) | Span(open: string, content: string, close: string, tag: Tag)

  /** The layout may resume at pos with event i next. */
  predicate TileAt(text: string, ks: seq<Event>, i: nat, pos: nat) {
    Spans(text, ks) && i <= |ks| && pos <= |text| && (i < |ks| ==> pos <= ks[i].m.start)
  }

  /** The pieces of text[pos..] from event i on. */
  function Tile(text: string, ks: seq<Event>, i: nat, pos: nat): seq<Piece>
    requires TileAt(text, ks, i, pos)
    decreases |ks| - i
  {
    if i == |ks| then
      (if pos < |text| then [Gap(text[pos..])] else [])
    else
      var m := ks[i].m;
      (if m.start > pos then [Gap(text[pos..m.start])] else []) +
      [Span(text[m.start..m.groupStart], text[m.groupStart..m.groupEnd], text[m.groupEnd..m.end], ks[i].tag)] +
      Tile(text, ks, i + 1, m.end)
  }

  /** The text a list of pieces was cut from. */
  function Flatten(ps: seq<Piece>): string {
    if ps == [] then []
    else
      (match ps[0]
       case Gap(t) => t
       case Span(o, c, e, _) => o + c + e) + Flatten(ps[1..])
  }

  lemma {:induction false} FlattenAppend(a: seq<Piece>, b: seq<Piece>)
    ensures Flatten(a + b) == Flatten(a) + Flatten(b)
  {
    if a == [] {
      assert a + b == b;
    } else {
      assert (a + b)[1..] == a[1..] + b;
      FlattenAppend(a[1..], b);
    }
  }

  /** A suffix of s cut at four points. */
  lemma FlattenGapSpan(gap: seq<Piece>, span: Piece, rest: seq<Piece>)
    requires span.Span?
    ensures Flatten(gap + ([span] + rest)) == Flatten(gap) + (span.open + span.content + span.close) + Flatten(rest)
  {
    FlattenAppend(gap, [span] + rest);
    FlattenAppend([span], rest);
    assert Flatten([span]) == span.open + span.content + span.close + Flatten([]);
  }

  /** The pieces cover the text exactly: nothing is lost, doubled or reordered. */
  lemma {:induction false} TileCovers(text: string, ks: seq<Event>, i: nat, pos: nat)
    requires TileAt(text, ks, i, pos)
    ensures Flatten(Tile(text, ks, i, pos)) == text[pos..]
    decreases |ks| - i
  {
    if i == |ks| {
      if pos < |text| {
        assert Flatten([Gap(text[pos..])]) == text[pos..] + Flatten([]);
      }
    } else {
      var m := ks[i].m;
      var gap: seq<Piece> := if m.start > pos then [Gap(text[pos..m.start])] else [];
      var span := Span(text[m.start..m.groupStart], text[m.groupStart..m.groupEnd], text[m.groupEnd..m.end], ks[i].tag);
      var rest := Tile(text, ks, i + 1, m.end);
      assert Tile(text, ks, i, pos) == gap + ([span] + rest);
      TileCovers(text, ks, i + 1, m.end);
      FlattenGapSpan(gap, span, rest);
      assert Flatten(gap) == text[pos..m.start] by {
        if m.start > pos {
          assert Flatten(gap) == text[pos..m.start] + Flatten([]);
        }
      }
      SliceParts(text, pos, m.start, m.groupStart, m.groupEnd, m.end);
    }
  }

  // ---- Segments ----

  /** A run of text and the styles it is shown with (none: the normal style). */
  datatype Segment = Segment(text: string, tags: seq<Tag>)

  /** The matches of the italic alternation inside a bold span, as italic events. */
  function NestedEvents(c: string): seq<Event> {
    PatternsValid();
    var ms := FindAll(c, NestedItalics, 0);
    seq(|ms|, j requires 0 <= j < |ms| => Event(ms[j], Italic, 0))
  }

  /** The nested events are the alternation's matches, one italic event each, laid out in order. */
  lemma NestedEventsOk(c: string)
    ensures Spans(c, NestedEvents(c))
    ensures PatternsOk() && |NestedEvents(c)| == |FindAll(c, NestedItalics, 0)|
    ensures forall j :: 0 <= j < |NestedEvents(c)| ==> NestedEvents(c)[j] == Event(FindAll(c, NestedItalics, 0)[j], Italic, 0)
  {
    PatternsValid();
    var ms := FindAll(c, NestedItalics, 0);
    FindAllOk(c, NestedItalics, 0);
    forall j | 0 <= j < |ms| ensures ms[j].start < ms[j].groupStart < ms[j].groupEnd < ms[j].end <= |c| {
      FindAllAt(c, NestedItalics, 0, j);
    }
  }

  predicate PatternsOk() {
    AllValid(NestedItalics)
  }

  /** One segment per piece: a gap unstyled, a span with its own tag. */
  function Plain(ps: seq<Piece>): (r: seq<Segment>)
    ensures |r| == |ps|
  {
    if ps == [] then []
    else
      (match ps[0]
       case Gap(t) => [Segment(t, [])]
       case Span(_, c, _, tag) => [Segment(c, [tag])]) + Plain(ps[1..])
  }

  /** `_parse_nested_in_bold`: the italic runs of a bold span and the text around them. */
  function NestedSegments(c: string): (r: seq<Segment>)
    ensures |r| >= 1
  {
    NestedEventsOk(c);
    var segs := Plain(Tile(c, NestedEvents(c), 0, 0));
    if segs == [] then [Segment(c, [])] else segs
  }

  /** The bold tag put in front of each nested segment's tags. */
  function WithBold(segs: seq<Segment>): (r: seq<Segment>)
    ensures |r| == |segs|
  {
    if segs == [] then [] else [Segment(segs[0].text, [Bold] + segs[0].tags)] + WithBold(segs[1..])
  }

  /** Each run keeps its text and gains the bold tag in front of its own tags. */
  lemma {:induction false} WithBoldSpec(segs: seq<Segment>)
    ensures forall j :: 0 <= j < |segs| ==> WithBold(segs)[j] == Segment(segs[j].text, [Bold] + segs[j].tags)
  {
    if segs != [] {
      WithBoldSpec(segs[1..]);
    }
  }

  /** The runs of a span's content: a bold span is cut again for italics, any other span is one run. */
  function SpanRuns(c: string, tag: Tag): seq<Segment> {
    if tag == Bold then WithBold(NestedSegments(c)) else [Segment(c, [tag])]
  }

  /** The segments of one piece. */
  function PieceSegments(p: Piece): seq<Segment> {
    match p
    case Gap(t) => [Segment(t, [])]
    case Span(_, c, _, tag) => SpanRuns(c, tag)
  }

  function PieceRuns(ps: seq<Piece>): seq<Segment> {
    if ps == [] then [] else PieceSegments(ps[0]) + PieceRuns(ps[1..])
  }

  /** `_parse_segments`: the styled runs of one line. */
  function LineSegments(text: string): seq<Segment> {
    KeptSpans(text);
    PieceRuns(Tile(text, Kept(text), 0, 0))
  }

  lemma {:induction false} PlainAppend(a: seq<Piece>, b: seq<Piece>)
    ensures Plain(a + b) == Plain(a) + Plain(b)
  {
    if a == [] {
      assert a + b == b;
    } else {
      assert (a + b)[1..] == a[1..] + b;
      PlainAppend(a[1..], b);
    }
  }

  lemma {:induction false} RenderAppend(a: seq<Piece>, b: seq<Piece>)
    ensures PieceRuns(a + b) == PieceRuns(a) + PieceRuns(b)
  {
    if a == [] {
      assert a + b == b;
    } else {
      assert (a + b)[1..] == a[1..] + b;
      RenderAppend(a[1..], b);
    }
  }

  // ---- Properties of the segments ----

  /** A character some pattern of the table opens with. */
  predicate Opener(c: char) {
    c == '*' || c == '_' || c == '~' || c == '<' || c == '`'
  }

  lemma {:induction false} NoOpenerNoEvents(text: string, n: nat)
    requires n <= |Rules|
    requires forall k :: 0 <= k < |text| ==> !Opener(text[k])
    ensures EventsUpTo(text, n) == []
  {
    if n > 0 {
      NoOpenerNoEvents(text, n - 1);
      var d := Rules[n - 1].pattern;
      PatternsValid();
      assert Opener(d.open[0]);
      assert text[0..] == text;
      NoOpenNoMatch(text, [d], 0);
    }
  }

  /** A line on which no pattern matches is one unstyled segment (none if it is empty). */
  lemma PlainLine(text: string)
    requires AllEvents(text) == []
    ensures LineSegments(text) == if text == [] then [] else [Segment(text, [])]
  {
    assert Candidates(text) == [] by {
      assert |Candidates(text)| == |multiset(AllEvents(text))| == 0;
    }
    assert Kept(text) == [];
    KeptSpans(text);
    var ps := Tile(text, [], 0, 0);
    assert text[0..] == text;
    if text != [] {
      assert ps == [Gap(text)];
      assert PieceRuns(ps) == PieceSegments(Gap(text)) + PieceRuns([]);
    }
  }

  /** In particular a line without any opening marker, such as `2 + 3 = 5`, is one unstyled segment. */
  lemma OpenerFreeLine(text: string)
    requires forall k :: 0 <= k < |text| ==> !Opener(text[k])
    ensures LineSegments(text) == if text == [] then [] else [Segment(text, [])]
  {
    NoOpenerNoEvents(text, |Rules|);
    PlainLine(text);
  }

  /** No gap and no span content is empty. */
  predicate SolidPiece(p: Piece) {
    match p
    case Gap(t) => t != []
    case Span(_, c, _, _) => c != []
  }

  lemma {:induction false} TileSolid(text: string, ks: seq<Event>, i: nat, pos: nat)
    requires TileAt(text, ks, i, pos)
    ensures forall j :: 0 <= j < |Tile(text, ks, i, pos)| ==> SolidPiece(Tile(text, ks, i, pos)[j])
    decreases |ks| - i
  {
    if i < |ks| {
      TileSolid(text, ks, i + 1, ks[i].m.end);
    }
  }

  lemma {:induction false} PlainSolid(ps: seq<Piece>)
    requires forall j :: 0 <= j < |ps| ==> SolidPiece(ps[j])
    ensures forall j :: 0 <= j < |Plain(ps)| ==> Plain(ps)[j].text != []
  {
    if ps != [] {
      PlainSolid(ps[1..]);
      assert SolidPiece(ps[0]);
    }
  }

  /** The nested runs of a non-empty bold content are never empty. */
  lemma NestedSolid(c: string)
    requires c != []
    ensures forall j :: 0 <= j < |NestedSegments(c)| ==> NestedSegments(c)[j].text != []
  {
    NestedEventsOk(c);
    TileSolid(c, NestedEvents(c), 0, 0);
    PlainSolid(Tile(c, NestedEvents(c), 0, 0));
  }

  lemma {:induction false} RenderSolid(ps: seq<Piece>)
    requires forall j :: 0 <= j < |ps| ==> SolidPiece(ps[j])
    ensures forall j :: 0 <= j < |PieceRuns(ps)| ==> PieceRuns(ps)[j].text != []
  {
    if ps != [] {
      RenderSolid(ps[1..]);
      assert SolidPiece(ps[0]);
      if ps[0].Span? && ps[0].tag == Bold {
        NestedSolid(ps[0].content);
        WithBoldSpec(NestedSegments(ps[0].content));
      }
    }
  }

  /** Every segment of a line carries some text: no empty runs are inserted. */
  lemma LineSegmentsSolid(text: string)
    ensures forall j :: 0 <= j < |LineSegments(text)| ==> LineSegments(text)[j].text != []
  {
    KeptSpans(text);
    TileSolid(text, Kept(text), 0, 0);
    RenderSolid(Tile(text, Kept(text), 0, 0));
  }

  // ---- The source's loops ----

  /** One layout step: the gap before event i (if any), the span, and the rest. */
  lemma TileStep(text: string, ks: seq<Event>, i: nat, pos: nat)
    requires TileAt(text, ks, i, pos) && i < |ks|
    ensures var m := ks[i].m;
      Tile(text, ks, i, pos) ==
        (if m.start > pos then [Gap(text[pos..m.start])] else []) +
        [Span(text[m.start..m.groupStart], text[m.groupStart..m.groupEnd], text[m.groupEnd..m.end], ks[i].tag)] +
        Tile(text, ks, i + 1, m.end)
  {
  }

  /** One layout step, as segments: the gap's run, the span's runs, and the rest. */
  lemma RenderStep(text: string, ks: seq<Event>, i: nat, pos: nat)
    requires TileAt(text, ks, i, pos) && i < |ks|
    ensures var m := ks[i].m;
      PieceRuns(Tile(text, ks, i, pos)) ==
        (if m.start > pos then [Segment(text[pos..m.start], [])] else []) +
        PieceSegments(Span(text[m.start..m.groupStart], text[m.groupStart..m.groupEnd], text[m.groupEnd..m.end], ks[i].tag)) +
        PieceRuns(Tile(text, ks, i + 1, m.end))
  {
    var m := ks[i].m;
    var gap: seq<Piece> := if m.start > pos then [Gap(text[pos..m.start])] else [];
    var span := Span(text[m.start..m.groupStart], text[m.groupStart..m.groupEnd], text[m.groupEnd..m.end], ks[i].tag);
    var rest := Tile(text, ks, i + 1, m.end);
    TileStep(text, ks, i, pos);
    assert Tile(text, ks, i, pos) == gap + ([span] + rest);
    RenderGapSpan(gap, span, rest);
    if m.start > pos {
      assert PieceRuns(gap) == PieceSegments(gap[0]) + PieceRuns([]);
    }
  }

  /** Rendering a gap, a span and the rest is rendering each in turn. */
  lemma RenderGapSpan(gap: seq<Piece>, span: Piece, rest: seq<Piece>)
    ensures PieceRuns(gap + ([span] + rest)) == PieceRuns(gap) + PieceSegments(span) + PieceRuns(rest)
  {
    RenderAppend(gap, [span] + rest);
    RenderAppend([span], rest);
    RenderOne(span);
    Assoc(PieceRuns(gap), PieceSegments(span), PieceRuns(rest));
  }

  lemma RenderOne(p: Piece)
    ensures PieceRuns([p]) == PieceSegments(p)
  {
    assert [p][1..] == [];
  }

  lemma PlainStep(text: string, ks: seq<Event>, i: nat, pos: nat)
    requires TileAt(text, ks, i, pos) && i < |ks|
    ensures var m := ks[i].m;
      Plain(Tile(text, ks, i, pos)) ==
        (if m.start > pos then [Segment(text[pos..m.start], [])] else []) +
        [Segment(text[m.groupStart..m.groupEnd], [ks[i].tag])] +
        Plain(Tile(text, ks, i + 1, m.end))
  {
    var m := ks[i].m;
    var gap: seq<Piece> := if m.start > pos then [Gap(text[pos..m.start])] else [];
    var span := Span(text[m.start..m.groupStart], text[m.groupStart..m.groupEnd], text[m.groupEnd..m.end], ks[i].tag);
    var rest := Tile(text, ks, i + 1, m.end);
    TileStep(text, ks, i, pos);
    PlainAppend(gap, [span] + rest);
    PlainAppend([span], rest);
  }

  /** The tail of the layout: the rest of the line after the last span, if any. */
  lemma TileEnd(text: string, ks: seq<Event>, pos: nat)
    requires TileAt(text, ks, |ks|, pos)
    ensures PieceRuns(Tile(text, ks, |ks|, pos)) == (if pos < |text| then [Segment(text[pos..], [])] else [])
  {
    if pos < |text| {
      assert PieceRuns([Gap(text[pos..])]) == PieceSegments(Gap(text[pos..])) + PieceRuns([]);
    }
  }

  lemma PlainEnd(text: string, ks: seq<Event>, pos: nat)
    requires TileAt(text, ks, |ks|, pos)
    ensures Plain(Tile(text, ks, |ks|, pos)) == (if pos < |text| then [Segment(text[pos..], [])] else [])
  {
  }

  /** One turn of the loop of `_parse_nested_in_bold`: the text before match i, then its italic run. */
  method NestedStep(text: string, es: seq<Event>, i: nat, pos: nat, segments: seq<Segment>, ghost total: seq<Segment>)
    returns (next: seq<Segment>, nextPos: nat)
    requires TileAt(text, es, i, pos) && i < |es|
    requires total == segments + Plain(Tile(text, es, i, pos))
    ensures TileAt(text, es, i + 1, nextPos)
    ensures total == next + Plain(Tile(text, es, i + 1, nextPos))
  {
    var m := es[i].m;
    PlainStep(text, es, i, pos);
    next := segments;
    if m.start > pos {
      next := next + [Segment(text[pos..m.start], [])];
    }
    next := next + [Segment(text[m.groupStart..m.groupEnd], [es[i].tag])];
    nextPos := m.end;
  }

  /** `InlineFormatter._parse_nested_in_bold` */
  method ParseNestedInBold(text: string) returns (segments: seq<Segment>)
    ensures segments == NestedSegments(text)
  {
    PatternsValid();
    var matches := FindAll(text, NestedItalics, 0);
    var es := NestedEvents(text);
    NestedEventsOk(text);
    ghost var total := Plain(Tile(text, es, 0, 0));
    segments := [];
    var currentPos: nat := 0;
    var i: nat := 0;
    while i < |matches|
      invariant i <= |es| == |matches| && TileAt(text, es, i, currentPos)
      invariant total == segments + Plain(Tile(text, es, i, currentPos))
    {
      segments, currentPos := NestedStep(text, es, i, currentPos, segments, total);
      i := i + 1;
    }
    PlainEnd(text, es, currentPos);
    if currentPos < |text| {
      segments := segments + [Segment(text[currentPos..], [])];
    }
    if segments == [] {
      segments := [Segment(text, [])];
    }
  }

  /** The kept events' ranges, as the source's `used_ranges` holds them. */
  function Ranges(kept: seq<Event>): (r: seq<(nat, nat)>)
    ensures |r| == |kept|
  {
    if kept == [] then [] else [(kept[0].m.start, kept[0].m.end)] + Ranges(kept[1..])
  }

  /** Range j is the start and end of kept event j. */
  lemma {:induction false} RangesAt(kept: seq<Event>, j: int)
    requires 0 <= j < |kept|
    ensures Ranges(kept)[j] == (kept[j].m.start, kept[j].m.end)
  {
    if j > 0 {
      RangesAt(kept[1..], j - 1);
    }
  }

  /** One step of the greedy pass. */
  lemma GreedyStep(events: seq<Event>, i: nat)
    requires i < |events|
    ensures Greedy(events[..i + 1]) ==
      if OverlapsAny(events[i], Greedy(events[..i])) then Greedy(events[..i])
      else Greedy(events[..i]) + [events[i]]
  {
    assert events[..i + 1][..i] == events[..i];
  }

  /** The inner loop of the filter: does e overlap one of the used ranges? */
  method OverlapsUsed(e: Event, usedRanges: seq<(nat, nat)>, ghost kept: seq<Event>) returns (overlaps: bool)
    requires usedRanges == Ranges(kept)
    ensures overlaps == OverlapsAny(e, kept)
  {
    overlaps := false;
    var u: nat := 0;
    while u < |usedRanges|
      invariant 0 <= u <= |usedRanges|
      invariant !overlaps
      invariant forall j :: 0 <= j < u ==> !Overlap(e, kept[j])
    {
      RangesAt(kept, u);
      if e.m.start < usedRanges[u].1 && e.m.end > usedRanges[u].0 {
        overlaps := true;
        assert Overlap(e, kept[u]);
        return;
      }
      u := u + 1;
    }
  }

  /** The filtering loop of `_parse_segments`: the greedy pass with its nested overlap search. */
  method FilterOverlaps(events: seq<Event>) returns (kept: seq<Event>)
    ensures kept == Greedy(events)
  {
    var usedRanges: seq<(nat, nat)> := [];
    kept := [];
    var i: nat := 0;
    while i < |events|
      invariant 0 <= i <= |events|
      invariant kept == Greedy(events[..i]) && usedRanges == Ranges(kept)
    {
      var e := events[i];
      var overlaps := OverlapsUsed(e, usedRanges, kept);
      GreedyStep(events, i);
      if !overlaps {
        RangesAppend(kept, e);
        kept := kept + [e];
        usedRanges := usedRanges + [(e.m.start, e.m.end)];
      }
      i := i + 1;
    }
    assert events[..i] == events;
  }

  lemma {:induction false} RangesAppend(kept: seq<Event>, e: Event)
    ensures Ranges(kept + [e]) == Ranges(kept) + [(e.m.start, e.m.end)]
  {
    if kept != [] {
      assert (kept + [e])[1..] == kept[1..] + [e];
      RangesAppend(kept[1..], e);
    }
  }

  /** The inner collecting loop of `_parse_segments`: the matches of one pattern, as events. */
  method RuleMatches(text: string, r: nat) returns (found: seq<Event>)
    requires r < |Rules|
    ensures found == RuleEvents(text, r)
  {
    PatternsValid();
    var matches := FindAll(text, [Rules[r].pattern], 0);
    ghost var own := RuleEvents(text, r);
    found := [];
    var j: nat := 0;
    while j < |matches|
      invariant 0 <= j <= |matches| == |own| && found == own[..j]
    {
      assert own[..j + 1] == own[..j] + [Event(matches[j], Rules[r].tag, r)];
      found := found + [Event(matches[j], Rules[r].tag, r)];
      j := j + 1;
    }
    assert own[..j] == own;
  }

  /** The collecting loops of `_parse_segments`: every match of every pattern, pattern by pattern. */
  method CollectEvents(text: string) returns (events: seq<Event>)
    ensures events == AllEvents(text)
  {
    events := [];
    var r: nat := 0;
    while r < |Rules|
      invariant r <= |Rules| && events == EventsUpTo(text, r)
    {
      var found := RuleMatches(text, r);
      events := events + found;
      r := r + 1;
    }
  }

  /** The bold tag put in front of the nested runs, run by run. */
  method PrefixBold(nested: seq<Segment>) returns (bolded: seq<Segment>)
    ensures bolded == WithBold(nested)
  {
    var k: nat := 0;
    bolded := [];
    while k < |nested|
      invariant 0 <= k <= |nested| && bolded == WithBold(nested[..k])
    {
      assert nested[..k + 1] == nested[..k] + [nested[k]];
      WithBoldAppend(nested[..k], [nested[k]]);
      bolded := bolded + [Segment(nested[k].text, [Bold] + nested[k].tags)];
      k := k + 1;
    }
    assert nested[..k] == nested;
  }

  /** The runs of one kept span, as the layout loop builds them. */
  method RunsOf(content: string, tag: Tag) returns (runs: seq<Segment>)
    ensures runs == SpanRuns(content, tag)
  {
    if tag == Bold {
      var nested := ParseNestedInBold(content);
      runs := PrefixBold(nested);
    } else {
      runs := [Segment(content, [tag])];
    }
  }

  /** One turn of the layout loop: the gap before event i, then the runs of its span. */
  method LayOutStep(text: string, kept: seq<Event>, i: nat, pos: nat, segments: seq<Segment>, ghost total: seq<Segment>)
    returns (next: seq<Segment>, nextPos: nat)
    requires TileAt(text, kept, i, pos) && i < |kept|
    requires total == segments + PieceRuns(Tile(text, kept, i, pos))
    ensures TileAt(text, kept, i + 1, nextPos)
    ensures total == next + PieceRuns(Tile(text, kept, i + 1, nextPos))
  {
    var e := kept[i];
    var m := e.m;
    RenderStep(text, kept, i, pos);
    var gap := if m.start > pos then [Segment(text[pos..m.start], [])] else [];
    var runs := RunsOf(text[m.groupStart..m.groupEnd], e.tag);
    ghost var span := Span(text[m.start..m.groupStart], text[m.groupStart..m.groupEnd], text[m.groupEnd..m.end], e.tag);
    assert PieceSegments(span) == runs;
    ghost var rest := PieceRuns(Tile(text, kept, i + 1, m.end));
    assert total == segments + (gap + runs + rest);
    Regroup(segments, gap, runs, rest);
    next := segments + gap + runs;
    nextPos := m.end;
  }

  /** The layout loop of `_parse_segments`: gaps, spans and the tail of the line. */
  method LayOut(text: string, kept: seq<Event>) returns (segments: seq<Segment>)
    requires Spans(text, kept)
    ensures segments == PieceRuns(Tile(text, kept, 0, 0))
  {
    ghost var total := PieceRuns(Tile(text, kept, 0, 0));
    segments := [];
    var currentPos: nat := 0;
    var i: nat := 0;
    while i < |kept|
      invariant i <= |kept| && TileAt(text, kept, i, currentPos)
      invariant total == segments + PieceRuns(Tile(text, kept, i, currentPos))
    {
      segments, currentPos := LayOutStep(text, kept, i, currentPos, segments, total);
      i := i + 1;
    }
    TileEnd(text, kept, currentPos);
    if currentPos < |text| {
      segments := segments + [Segment(text[currentPos..], [])];
    }
  }

  /** `InlineFormatter._parse_segments` */
  method ParseSegments(text: string) returns (segments: seq<Segment>)
    ensures segments == LineSegments(text)
  {
    var events := CollectEvents(text);
    var sorted := SortEvents(events);
    var kept := FilterOverlaps(sorted);
    KeptSpans(text);
    segments := LayOut(text, kept);
  }

  lemma {:induction false} WithBoldAppend(a: seq<Segment>, b: seq<Segment>)
    ensures WithBold(a + b) == WithBold(a) + WithBold(b)
  {
    if a == [] {
      assert a + b == b;
    } else {
      assert (a + b)[1..] == a[1..] + b;
      WithBoldAppend(a[1..], b);
    }
  }
}
