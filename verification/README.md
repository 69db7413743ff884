# Markdown rendering core of OllamaChatInterface, in Dafny

`OllamaChatInterface.py` is a desktop chat client for a local Ollama server. Its
assistant messages arrive as streamed Markdown, often with a `<think>…</think>`
reasoning block in front. The project models the text-processing core that turns
such a message into what the user sees and what they copy:

- **thinking-tag removal** (`strip_markdown`, `MarkdownParser.clean_text`): the
  four substitutions in order, with the lazy `<think>.*?</think>` pair removal
  modelled exactly (module `Think`);
- **HTML conversion for the clipboard** (`markdown_to_html`,
  `process_inline_formatting_html`, `parse_table_to_html`): the line scan with
  its code blocks, tables, rules, headings, lists and paragraphs, the list state
  machine, `html.escape`, and the chain of `re.sub` calls for inline emphasis
  (modules `HtmlEscape`, `Scan`, `InlineHtml`, `InlineHtmlSafety`, `Tables`,
  `LineKinds`, `Blocks`, `MarkdownHtml`);
- **the widget renderer** (`MessageRenderer._render_formatted`,
  `InlineFormatter.render_line`, `_parse_segments`, `_parse_nested_in_bold`,
  `MarkdownParser.parse_table_rows`): which widgets are created, and which styled
  runs go into each text widget (modules `Segments`, `Render`, `Tables`, `Blocks`);
- **Markdown detection** (`has_markdown_formatting`) and the structure trigger
  of `_incremental_update` (module `Detect`);
- **the streaming state machine** of `MessageRenderer` (`set_streaming`,
  `update_content`, `_incremental_update`, `_update_plain_text`) as a class whose
  fields are the renderer's fields (module `Streaming`);
- **the CF_HTML payload** of `copy_html_to_clipboard`: UTF-8 encoding, the
  zero-padded header and its byte offsets (modules `Clipboard`, `Numerals`).

The regular expressions of the source are modelled by hand. `Scan` covers every
delimited pattern: a literal opening marker, a lazy or greedy group with a set of
banned characters, a literal closing marker, and one-character look-behind and
look-ahead sets. It also covers `finditer`'s leftmost, non-overlapping scan.
`LineKinds` and `Detect` cover the anchored line patterns (`#{1,6}\s+(.+)$` and
friends) with their backtracking. `\s` and `str.strip()` use Python's Unicode
whitespace set. Each scanner comes with a lemma relating it to a declarative
reading of its pattern.

Where the code of a function is a loop, the model has a method with that loop,
proved equal to a specification function. The properties are proved about that
function.

## Model

| member | source | states |
|---|---|---|
| Think.StripPairs | OllamaChatInterface.py:379 | the lazy `<think>.*?</think>` substitution: left to right, an opening tag with a closing tag after it goes together with everything up to the first such closing tag; the text never grows |
| Think.StripTail | OllamaChatInterface.py:380 | `<think>.*$` removal cuts exactly at the first `<think>`: the result is a prefix with no opening tag, and is the whole text or ends where the first opening tag starts |
| Think.StripThinking | OllamaChatInterface.py:378-383 | `strip_markdown`: the pair, tail, stray-closing and stray-opening substitutions, in that order |
| Think.StripPairsNoClose | OllamaChatInterface.py:379 | with no closing tag, the lazy pair substitution changes nothing |
| Think.StripPairsNoOpen | OllamaChatInterface.py:379 | with no opening tag, the lazy pair substitution changes nothing |
| Think.MatchedPairRemoved | OllamaChatInterface.py:379 | in `a<think>b</think>c` the first opening tag, the first closing tag after it and everything between vanish; the scan resumes on `c` |
| Think.NoTagsUnchanged | OllamaChatInterface.py:378-383 | `strip_markdown` leaves a text with neither tag unchanged |
| Think.ThinkingBlockHidden | OllamaChatInterface.py:378-383 | `a<think>b</think>c` becomes `ac` |
| Think.UnterminatedHidden | OllamaChatInterface.py:380 | an opening tag with no closing tag hides everything from it on |
| Think.CleanText | OllamaChatInterface.py:439-444 | `clean_text` returns text with no whitespace at either end |
| Think.SecretHidden | OllamaChatInterface.py:439-444 | `<think>secret</think>visible` cleans to `visible` |
| Text.StripSpec | OllamaChatInterface.py:444 | `strip()` gives a slice of the input with no whitespace at either end, starting where `lstrip()` stops |
| Text.LStripSpec | OllamaChatInterface.py:444 | `lstrip()` drops exactly the leading whitespace run |
| Text.RStripSpec | OllamaChatInterface.py:147 | `rstrip()` drops exactly the trailing whitespace run |
| Text.SplitSpec | OllamaChatInterface.py:140 | joining the pieces of `split('\n')` with the separator restores the text |
| Text.SplitJoin | OllamaChatInterface.py:140 | splitting the join of separator-free pieces gives those pieces back |
| Text.SplitNoSep | OllamaChatInterface.py:750 | no piece of a split contains the separator |
| Text.RemoveAllAbsent | OllamaChatInterface.py:381-382 | removing an absent literal tag changes nothing |
| HtmlEscape.Escape | OllamaChatInterface.py:316 | no `<`, `>`, `"` or `'` survives `html.escape`, and the text never shrinks |
| HtmlEscape.EscapeAppend | OllamaChatInterface.py:157 | escaping works character by character |
| HtmlEscape.EscapePlain | OllamaChatInterface.py:316 | a text without special characters is its own escape |
| HtmlEscape.EscapeChars | OllamaChatInterface.py:316 | escaping adds no character other than those of the entities |
| HtmlEscape.EscapeRoundTrip | OllamaChatInterface.py:157 | unescaping the escape gives the text back |
| Scan.FindCloseSpec | OllamaChatInterface.py:317 | the lazy `(.+?)` group ends at the first admissible closing marker, and finds none only when none exists |
| Scan.MatchAtSpec | OllamaChatInterface.py:473 | the match at p is the shortest admissible match; none only when the opener or look-behind fails or nothing closes |
| Scan.MatchFramed | OllamaChatInterface.py:317 | a match is its opening marker, its group and its closing marker |
| Scan.MatchBounds | OllamaChatInterface.py:496 | a match and its non-empty group lie inside the text |
| Scan.MatchFirstSpec | OllamaChatInterface.py:530 | an alternation matches with its first matching alternative, or with none |
| Scan.FindAllOk | OllamaChatInterface.py:495 | `finditer`'s matches are what the pattern matches where they start, in order and without overlap |
| Scan.FindAllLeftmost | OllamaChatInterface.py:495 | each match found is the leftmost from where the previous one ended, and no match is skipped |
| Scan.FindAllApart | OllamaChatInterface.py:532 | a match ends no later than the next one starts |
| Scan.NoOpenNoMatch | OllamaChatInterface.py:495 | no match without the opening marker's first character |
| InlineHtml.FindAllLaid | OllamaChatInterface.py:317 | the matches a substitution replaces lie in order inside the text |
| InlineHtml.SpliceRestores | OllamaChatInterface.py:317 | putting each group back between its markers rebuilds the rest of the text |
| InlineHtml.SubRestores | OllamaChatInterface.py:317-329 | `re.sub` loses nothing: with the markers as replacement it is the identity |
| InlineHtml.SubAbsent | OllamaChatInterface.py:317-329 | a pattern whose opening character is absent changes nothing |
| InlineHtml.CellStagesShape | OllamaChatInterface.py:317-329 | the eight substitutions are well-formed delimited patterns |
| InlineHtml.PipelineSkips | OllamaChatInterface.py:317-329 | substitutions whose opening characters are absent leave the text unchanged |
| InlineHtml.EscapeUnmarked | OllamaChatInterface.py:316 | escaping introduces no `*`, `_`, `~` or backtick |
| InlineHtml.InlineFormat | OllamaChatInterface.py:315-330 | `process_inline_formatting_html`: escape, then the eight substitutions in order |
| InlineHtml.PlainCell | OllamaChatInterface.py:315-330 | text without marker characters is only escaped |
| InlineHtmlSafety.SubSafe | OllamaChatInterface.py:317-329 | a substitution with safe replacement parts keeps every `<` opening an allowed tag |
| InlineHtmlSafety.PipelineSafe | OllamaChatInterface.py:317-329 | the chain of substitutions keeps the text safe |
| InlineHtmlSafety.InlineFormatSafe | OllamaChatInterface.py:315-330 | whatever the input, every `<` in the output opens `<strong>`, `<em>`, `<del>`, `<code>` or their closing forms |
| Segments.PatternsValid | OllamaChatInterface.py:466-478 | the eleven inline patterns and the nested italic alternation are well formed |
| Segments.RuleEvents | OllamaChatInterface.py:495-496 | rule i's events are its `finditer` matches, one event each, in order |
| Segments.RuleEventsOk | OllamaChatInterface.py:495-496 | each event is framed by its rule's markers; one rule's events do not overlap |
| Segments.EventsUpToOk | OllamaChatInterface.py:494-496 | every collected event was found by one of the rules |
| Segments.EventKeysDistinct | OllamaChatInterface.py:497 | no two events share start and rule, so the sort key plus the rule is a total order |
| Segments.RuleEventsIncreasing | OllamaChatInterface.py:495 | one rule's events start strictly later and later |
| Segments.SortEventsSorted | OllamaChatInterface.py:497 | the sort orders by (start, −end, rule) and is a permutation |
| Segments.GreedyPrefix | OllamaChatInterface.py:500-508 | the overlap filter only ever appends |
| Segments.GreedyDisjoint | OllamaChatInterface.py:500-508 | no two kept events overlap |
| Segments.GreedyFromInput | OllamaChatInterface.py:500-508 | every kept event is a candidate |
| Segments.GreedyMaximal | OllamaChatInterface.py:500-508 | every candidate is kept or overlaps a kept event |
| Segments.GreedySorted | OllamaChatInterface.py:509 | the kept events stay sorted, so the second sort changes nothing |
| Segments.Candidates | OllamaChatInterface.py:497 | the candidates are all events, sorted |
| Segments.KeptSpans | OllamaChatInterface.py:509-523 | the kept spans lie in the line in order, apart, each with a non-empty group |
| Segments.TileCovers | OllamaChatInterface.py:510-525 | gaps and spans cover the line exactly: nothing lost, doubled or reordered |
| Segments.NestedEventsOk | OllamaChatInterface.py:530-532 | the nested events are the italic alternation's matches, in order |
| Segments.NestedSegments | OllamaChatInterface.py:540 | `_parse_nested_in_bold` never returns an empty list |
| Segments.WithBoldSpec | OllamaChatInterface.py:515-520 | each nested run keeps its text and gains `bold` in front of its tags |
| Segments.SortEvents | OllamaChatInterface.py:497 | the sort keeps exactly the events it is given |
| Segments.Greedy | OllamaChatInterface.py:498-508 | the overlap filter: each event in sorted order is kept unless it overlaps one kept before it |
| Segments.LineSegments | OllamaChatInterface.py:490-526 | `_parse_segments`: the kept matches tile the line with the plain gaps between them, each match giving its styled runs |
| Segments.PlainLine | OllamaChatInterface.py:490-526 | a line on which no pattern matches is one unstyled segment, none if empty |
| Segments.OpenerFreeLine | OllamaChatInterface.py:490-526 | in particular a line without an opening marker is one unstyled segment |
| Segments.LineSegmentsSolid | OllamaChatInterface.py:510-525 | no segment is empty |
| Segments.NestedSolid | OllamaChatInterface.py:532-540 | no nested run of non-empty bold content is empty |
| Segments.OverlapsUsed | OllamaChatInterface.py:501-505 | the inner loop reports overlap exactly when e overlaps a kept event |
| Segments.FilterOverlaps | OllamaChatInterface.py:498-508 | the filter loop computes the greedy pass |
| Segments.RuleMatches | OllamaChatInterface.py:495-496 | the inner collecting loop yields rule r's events |
| Segments.CollectEvents | OllamaChatInterface.py:493-496 | the collecting loops yield every rule's events, rule by rule |
| Segments.PrefixBold | OllamaChatInterface.py:515-520 | the bold prefix loop matches WithBold |
| Segments.RunsOf | OllamaChatInterface.py:513-522 | a kept span's runs: bold content re-cut for italics, anything else one run |
| Segments.LayOut | OllamaChatInterface.py:510-525 | the layout loop emits gaps, span runs and the tail |
| Segments.ParseNestedInBold | OllamaChatInterface.py:528-540 | the method computes the nested segments |
| Segments.ParseSegments | OllamaChatInterface.py:490-526 | the method computes the line's segments |
| Tables.RowOf | OllamaChatInterface.py:447-463 | one line for `parse_table_rows`: no row for an alignment row or fewer than three pieces, else the inner cells |
| Tables.HtmlRowOf | OllamaChatInterface.py:334-341 | one line for `parse_table_to_html`: a row only for a line piped at both ends that is not an alignment row |
| Tables.TableHtml | OllamaChatInterface.py:332-353 | the table HTML: empty with no row, otherwise `<table>` with the first row as `<th>` cells and the rest as `<td>` |
| Tables.Cells | OllamaChatInterface.py:455 | one stripped cell per split piece, at least one |
| Tables.TableRows | OllamaChatInterface.py:447-463 | never more rows than lines |
| Tables.ParseTableRows | OllamaChatInterface.py:447-463 | the loop yields the rows of the lines |
| Tables.CollectHtmlRows | OllamaChatInterface.py:333-341 | the loop yields the HTML rows |
| Tables.RenderCells | OllamaChatInterface.py:348-350 | the cell loop writes each formatted cell in its tag |
| Tables.RenderRows | OllamaChatInterface.py:345-351 | the row loop writes `<tr>` rows, header cells first |
| Tables.ParseTableToHtml | OllamaChatInterface.py:332-353 | the method returns the table HTML, empty when no row is left |
| Tables.RowRoundTrip | OllamaChatInterface.py:452-462 | both parsers read a written-out row `\|a\|b\|` back as its cells |
| Tables.SeparatorDropped | OllamaChatInterface.py:457-458 | an alignment row is dropped by both parsers |
| Tables.TableRowsRoundTrip | OllamaChatInterface.py:447-463 | the widget parser reads written-out rows back |
| Tables.HtmlRowsRoundTrip | OllamaChatInterface.py:332-341 | the HTML parser reads written-out rows back |
| Tables.TableRoundTrip | OllamaChatInterface.py:332-341 | both parsers read written-out rows back |
| Tables.HeaderSeparatorBody | OllamaChatInterface.py:447-463 | a header, an alignment row and body rows give the header and the body |
| Tables.TableRowsAppend | OllamaChatInterface.py:449 | rows of two blocks of lines are the rows of each, in order |
| Tables.LineParsersAgree | OllamaChatInterface.py:336-341 | the two parsers agree on piped lines with an inner cell |
| Tables.BarePipe | OllamaChatInterface.py:461 | they differ on `\|`: a row for the HTML table only |
| Tables.NoPipeNoRow | OllamaChatInterface.py:461 | a line without a pipe is never a row |
| Tables.TableHtmlEmpty | OllamaChatInterface.py:342-343 | the table HTML is empty exactly when no row is left |
| LineKinds.FenceLanguage | OllamaChatInterface.py:760 | the language tag has no surrounding whitespace |
| LineKinds.SkipSpec | OllamaChatInterface.py:191 | a greedy class run is all of the class and cannot be extended |
| LineKinds.GroupStartSpec | OllamaChatInterface.py:191 | `\s+(.+)$` matches exactly with whitespace and one more character; the group follows a maximal run, or backtracks to take the last character |
| LineKinds.MatchHeading | OllamaChatInterface.py:191 | a heading has level 1 to 6 and non-empty content |
| LineKinds.HeadingSpec | OllamaChatInterface.py:191-196 | a line is a heading exactly when one to six `#` are followed by whitespace and a character; level and content are those parts |
| LineKinds.HeadingOfLine | OllamaChatInterface.py:191-196 | `#…# content` reads back as its level and content |
| LineKinds.MatchBullet | OllamaChatInterface.py:203 | a bullet has one marker from `-*+` and non-empty content |
| LineKinds.BulletSpec | OllamaChatInterface.py:203 | a line is a bullet exactly when past its indent a marker, whitespace and a character follow; the parts are those slices |
| LineKinds.BulletOfLine | OllamaChatInterface.py:203 | indent, marker, space and content read back as those parts |
| LineKinds.IndentLevel | OllamaChatInterface.py:802-803 | nesting is `min(len(indent) // 2, 2)` |
| LineKinds.MatchNumbered | OllamaChatInterface.py:217 | the marker is digits and a dot; the content is non-empty |
| LineKinds.NumberedSpec | OllamaChatInterface.py:217 | a line is numbered exactly when past its indent digits, a dot, whitespace and a character follow |
| LineKinds.NumberedOfLine | OllamaChatInterface.py:217 | indent, digits, dot, space and content read back as those parts |
| LineKinds.ItemKindsDisjoint | OllamaChatInterface.py:800-815 | no line is both a bullet and a numbered item |
| Blocks.KindOf | OllamaChatInterface.py:794-817 | a line's kind: heading, bullet, numbered in that order, then blank or text; the HTML converter right-strips the line and tries a rule first (lines 181-188) |
| Blocks.FenceEnd | OllamaChatInterface.py:763-764 | the index of the next fence line or the end, never before where it starts |
| Blocks.TableEnd | OllamaChatInterface.py:778-780 | the index of the first line without a leading pipe, past a piped first line |
| Blocks.ScanBlocks | OllamaChatInterface.py:753-818 | the blocks of the lines in order: a code block from a fence to the next fence, a table from a piped line, otherwise one classified line |
| Blocks.FenceEndSpec | OllamaChatInterface.py:156 | the code loop stops at the first fence line or the end |
| Blocks.TableEndSpec | OllamaChatInterface.py:175 | the table loop stops at the first line without a leading pipe |
| Blocks.SplitLines | OllamaChatInterface.py:750 | the lines of a split text hold no newline |
| Blocks.CollectTable | OllamaChatInterface.py:777-780 | the loop collects the lines up to the table's end |
| Blocks.ScanCovers | OllamaChatInterface.py:753-818 | the blocks read every line once and in order |
| Blocks.ScanAt | OllamaChatInterface.py:753-818 | every block is well formed; an unclosed code block is last; a table took every following piped line |
| Blocks.ScanHead | OllamaChatInterface.py:754 | each block starts with the line the scan is at |
| Blocks.FenceHead | OllamaChatInterface.py:755-770 | at a fence, the block is the fence, the code up to the next fence, and that fence if any |
| Blocks.TableHead | OllamaChatInterface.py:772-786 | at a table start, the block is the run of piped lines |
| Blocks.UnclosedFence | OllamaChatInterface.py:763-766 | an opening fence with no later fence takes every remaining line as code |
| Render.Combined | OllamaChatInterface.py:485-487 | the combined tags are the base tags followed by the segment's own; the base alone when the segment has none; `normal` when both are empty |
| Render.KindRuns | OllamaChatInterface.py:794-817 | a classified line's runs: a heading under `h<level>`, a bullet character and item under the level's bullet tag, a number and item under `numbered`, plain text untagged, nothing for a blank line |
| Render.Rendered | OllamaChatInterface.py:745-822 | `_render_formatted`: no widget for an empty cleaned text, otherwise the layout of the blocks of its lines |
| Render.RunsOfAt | OllamaChatInterface.py:484-488 | run j is segment j's text under its combined tags |
| Render.Layout | OllamaChatInterface.py:753-818 | while a text widget is open, it is the last widget |
| Render.RenderLine | OllamaChatInterface.py:480-488 | the loop inserts the line's runs |
| Render.CollectCode | OllamaChatInterface.py:761-765 | the loop collects the code lines up to the next fence |
| Render.RenderHeading | OllamaChatInterface.py:794-797 | a heading's runs |
| Render.RenderBullet | OllamaChatInterface.py:800-807 | a bullet's runs |
| Render.RenderNumbered | OllamaChatInterface.py:810-813 | a numbered item's runs |
| Render.RenderKindRuns | OllamaChatInterface.py:794-817 | the branches insert exactly the runs of the classified line |
| Render.RenderKind | OllamaChatInterface.py:794-817 | a classified line's runs, patterns tried in order |
| Render.RenderFormatted | OllamaChatInterface.py:745-822 | the method leaves exactly the widgets of the rendered text |
| Render.PlainTextShown | OllamaChatInterface.py:480-488 | a line without marker characters is one `normal` run |
| Render.HeadingRuns | OllamaChatInterface.py:797 | every heading run carries `h<level>` first |
| Render.BulletRuns | OllamaChatInterface.py:802-807 | a bullet opens with the level's bullet character, and every run carries the level's bullet tag first |
| Render.LineRuns | OllamaChatInterface.py:480-488 | `render_line`: nothing for empty text, otherwise one run per segment under the combined tags |
| Render.LineRunsSolid | OllamaChatInterface.py:484-488 | no inserted run is empty, and each carries at least one tag |
| Render.LayoutKeepsLines | OllamaChatInterface.py:787-818 | each classified line becomes exactly one line of a text widget |
| MarkdownHtml.CollectEscapedCode | OllamaChatInterface.py:155-158 | the loop escapes each code line up to the next fence |
| MarkdownHtml.CloseOpenList | OllamaChatInterface.py:151-153 | an open list is closed with its own tag |
| MarkdownHtml.ConvertItem | OllamaChatInterface.py:203-228 | a list item joins its list or closes the other and opens its own |
| MarkdownHtml.ConvertHeading | OllamaChatInterface.py:191-200 | a heading closes any list and adds `<h<level>>` |
| MarkdownHtml.ConvertParagraph | OllamaChatInterface.py:238-245 | other text closes any list and adds a paragraph |
| MarkdownHtml.ConvertLine | OllamaChatInterface.py:181-245 | a right-stripped line: rule, heading, bullet, numbered, blank, paragraph, in that order |
| MarkdownHtml.ConvertFence | OllamaChatInterface.py:149-167 | a code block closes any list and adds the escaped code |
| MarkdownHtml.ConvertTable | OllamaChatInterface.py:169-179 | a table closes any list and adds its HTML |
| MarkdownHtml.ConvertStep | OllamaChatInterface.py:146-245 | one pass of the loop |
| MarkdownHtml.PartHtml | OllamaChatInterface.py:152-248 | the HTML of one part: list tags, `<li>`, `<h<level>>` and `<p>` around the formatted content, `<hr>`, the styled code div of escaped lines joined by `<br>`, and the table HTML |
| MarkdownHtml.LineStep | OllamaChatInterface.py:181-245 | one classified line: a list item joins its list or opens its own; anything else closes the open list |
| MarkdownHtml.MarkdownToHtml | OllamaChatInterface.py:133-250 | `markdown_to_html`: the parts of the blocks of the stripped text's lines, a list left open closed at the end |
| MarkdownHtml.ConvertMarkdown | OllamaChatInterface.py:133-250 | the method returns the HTML of the text |
| MarkdownHtml.WellNested | OllamaChatInterface.py:143-248 | every list opens outside any list and closes with its own tag, every item sits in a list of its type, and none is left open |
| MarkdownHtml.FoldNests | OllamaChatInterface.py:146-245 | every prefix of the scan keeps the list discipline |
| MarkdownHtml.ContentsKept | OllamaChatInterface.py:146-248 | apart from list tags, the output is each block's content in order; blank lines give none |
| MarkdownHtml.CodeLinesRecoverable | OllamaChatInterface.py:157-159 | each code line can be read back from its escaped form |
| Numerals.Decimal | OllamaChatInterface.py:68 | `str(n)` is digits without a leading zero |
| Numerals.DecimalValue | OllamaChatInterface.py:68 | `str(n)` reads back as n |
| Numerals.DecimalLength | OllamaChatInterface.py:68 | n has at most w digits exactly when n < 10^w |
| Numerals.ZeroPadSpec | OllamaChatInterface.py:68-71 | `{:08d}` reads back as n; it is exactly 8 characters below 10^8 and longer otherwise |
| Detect.HeadingAtSpec | OllamaChatInterface.py:366 | the heading test is `#{1,6}\s` |
| Detect.BulletAtSpec | OllamaChatInterface.py:367 | the bullet test is `\s*[-*+]\s` |
| Detect.NumberAtSpec | OllamaChatInterface.py:368 | the number test is `\s*\d+\.\s` |
| Detect.TableLineAtSpec | OllamaChatInterface.py:370 | the table test is a pipe, a character, a pipe, then the line's end |
| Detect.Formatted | OllamaChatInterface.py:355-375 | the text is Markdown when one of the patterns finds something |
| Detect.Trigger | OllamaChatInterface.py:714 | new structure: a fence anywhere, or after a newline a heading, bullet, number or pipe |
| Detect.HasMarkdownFormatting | OllamaChatInterface.py:355-375 | the loop returns true exactly when some pattern finds something |
| Detect.PlainText | OllamaChatInterface.py:355-375 | text with none of the marker characters is not Markdown |
| Detect.BoldFound | OllamaChatInterface.py:359 | bold text on one line is Markdown |
| Detect.HeadingFound | OllamaChatInterface.py:366 | a heading mark at a line start is Markdown |
| Detect.BulletFound | OllamaChatInterface.py:367 | a bullet at a line start is Markdown |
| Detect.FenceFound | OllamaChatInterface.py:369 | a code fence anywhere is Markdown |
| Detect.LinePatternsShift | OllamaChatInterface.py:714 | the line patterns read the same after any prefix |
| Detect.TriggerFormatted | OllamaChatInterface.py:714 | a trigger other than the bare `\n\|` makes the whole message Markdown |
| Detect.FenceTriggerFormatted | OllamaChatInterface.py:714 | a fence in the streamed text makes the message Markdown |
| Streaming.Added | OllamaChatInterface.py:711 | the new text is as long as the growth, and is the content's suffix after the last render |
| Streaming.InsertText | OllamaChatInterface.py:723 | `insert(END, t)`: the lines before the last are kept, the last line keeps its runs at its front, and each newline in t adds one line |
| Streaming.InsertShowsText | OllamaChatInterface.py:723 | the widget then shows its old text followed by exactly t |
| Streaming.AppendText | OllamaChatInterface.py:723 | appending t to a text widget adds exactly t to what it shows |
| Streaming.PlainViewShows | OllamaChatInterface.py:739-741 | the plain-text widget shows exactly the stripped text |
| Streaming.NewTokens | OllamaChatInterface.py:681-682 | the token estimate `max(1, (len(content) - old_len) // 4)` |
| Streaming.PlainStep | OllamaChatInterface.py:732-743 | `_update_plain_text`: the plain widget is reused, or every widget is cleared and the plain widget created; it shows the stripped text |
| Streaming.FullStep | OllamaChatInterface.py:745-822 | `_render_formatted` on the fields: the widgets become the rendered text and there is no plain widget |
| Streaming.Rerender | OllamaChatInterface.py:716-718 | a full render recorded with its content and the current token count |
| Streaming.UpdateStep | OllamaChatInterface.py:675-708 | `update_content` on the fields: ignore the same text, render in full outside streaming, else count tokens and choose plain, full or incremental rendering |
| Streaming.StreamStep | OllamaChatInterface.py:685-703 | the streaming branch of `update_content`: from the threshold on a Markdown text switches to formatted mode; a formatted message is rendered in full every interval and extended in between; otherwise the plain widget is refreshed |
| Streaming.IncrementalStep | OllamaChatInterface.py:710-730 | `_incremental_update`: nothing for no new text, a full render on new structure or without a trailing text widget, else the new text appended |
| Streaming.SetStreamingStep | OllamaChatInterface.py:665-673 | `set_streaming`: stopping resets the counters and renders the whole text formatted |
| Streaming.MessageRenderer.constructor | OllamaChatInterface.py:608-623 | empty text, counters 0, no widgets, not streaming, not formatted, no plain widget |
| Streaming.MessageRenderer.RenderFull | OllamaChatInterface.py:745-822 | widgets become the rendered text; no plain widget |
| Streaming.MessageRenderer.UpdatePlainText | OllamaChatInterface.py:732-743 | the plain widget shows the stripped text; others are cleared on creation |
| Streaming.MessageRenderer.RerenderAll | OllamaChatInterface.py:716-718 | a full render recorded with its content and token count |
| Streaming.MessageRenderer.IncrementalUpdate | OllamaChatInterface.py:710-730 | new state is IncrementalStep of the old |
| Streaming.MessageRenderer.UpdateStreaming | OllamaChatInterface.py:685-703 | new state is StreamStep of the old |
| Streaming.MessageRenderer.UpdateContent | OllamaChatInterface.py:675-708 | new state is UpdateStep of the old, and the fields stay consistent |
| Streaming.MessageRenderer.SetStreaming | OllamaChatInterface.py:665-673 | new state is SetStreamingStep of the old, and the fields stay consistent |
| Streaming.OkKept | OllamaChatInterface.py:665-743 | both operations keep the fields consistent |
| Streaming.SameContentIgnored | OllamaChatInterface.py:676-677 | an update with the same text changes nothing |
| Streaming.TokensCounted | OllamaChatInterface.py:681-682 | each update counts exactly `max(1, Δ // 4)` tokens for Δ added characters: a quarter of them rounded down, and exactly one when that is less than one |
| Streaming.FormattedSticky | OllamaChatInterface.py:685-708 | formatted mode, once on, stays on |
| Streaming.SwitchToFormatted | OllamaChatInterface.py:685-690 | while streaming, formatted mode is on exactly when the count reached 30 and the text is Markdown; then everything was rendered |
| Streaming.PlainUntilFormatted | OllamaChatInterface.py:691-692 | until then the only widget is the stripped plain text |
| Streaming.RerenderEveryInterval | OllamaChatInterface.py:693-699 | 100 tokens past the last render, everything is rendered again; afterwards the last render is less than 100 behind |
| Streaming.TriggerRerenders | OllamaChatInterface.py:714-719 | new structure in the streamed text forces a full render |
| Streaming.AddedTextAppended | OllamaChatInterface.py:720-726 | otherwise the last text widget shows its old text followed by the new text, and other widgets are untouched |
| Streaming.StopRendersAll | OllamaChatInterface.py:668-673 | when streaming stops, the counters reset and the whole text is rendered, formatted |
| Streaming.IdleRendersAll | OllamaChatInterface.py:705-708 | outside streaming, every change is rendered in full |
| Clipboard.Utf8 | OllamaChatInterface.py:82 | `encode('utf-8')`: at least one byte per character |
| Clipboard.OffsetsOf | OllamaChatInterface.py:86-93 | the offsets: the dummy header's length, then the encoded prefix, fragment and suffix lengths added up |
| Clipboard.Payload | OllamaChatInterface.py:95-97 | the final header, the HTML part and one NUL byte |
| Clipboard.Utf8RoundTrip | OllamaChatInterface.py:82 | decoding the UTF-8 bytes gives the text back |
| Clipboard.Utf8Append | OllamaChatInterface.py:97 | encoding distributes over concatenation |
| Clipboard.Utf8Ascii | OllamaChatInterface.py:87 | ASCII text encodes to one byte per character |
| Clipboard.HeaderShape | OllamaChatInterface.py:66-72 | the header is ASCII, 65 characters plus its four numerals |
| Clipboard.HeaderLength | OllamaChatInterface.py:87-88 | with every offset below 10^8 the header is 97 bytes |
| Clipboard.PrefixLength | OllamaChatInterface.py:73-78 | the prefix is 53 bytes |
| Clipboard.SuffixLength | OllamaChatInterface.py:79 | the suffix is 36 bytes |
| Clipboard.OffsetsValues | OllamaChatInterface.py:90-93 | StartHTML 97, StartFragment 150; the fragment spans the encoded content, then 36 suffix bytes |
| Clipboard.FinalHeaderLength | OllamaChatInterface.py:96 | the final header is as long as the dummy exactly while EndHTML fits in 8 digits; longer otherwise |
| Clipboard.PayloadLayout | OllamaChatInterface.py:95-97 | the offsets point at prefix, content and suffix; the fragment decodes to the content; one NUL ends it |
| Clipboard.HtmlFields | OllamaChatInterface.py:68-69 | the StartHTML and EndHTML numerals are characters 23-30 and 41-48 of the header |
| Clipboard.FragmentFields | OllamaChatInterface.py:70-71 | the StartFragment and EndFragment numerals are characters 65-72 and 87-94 of the header |
| Clipboard.HeaderValues | OllamaChatInterface.py:66-72 | each header numeral reads back as its offset |
| Clipboard.AsciiFragment | OllamaChatInterface.py:90-93 | an ASCII fragment moves the end offsets by one per character |

## Left out

- Tk widgets, fonts, colours, packing and `_auto_height` are not modelled. A text widget is its list of lines of styled runs. A code widget is its language and code. A table widget is its rows.
- `_clear_widgets` is the assignment of an empty widget list. Destroying widgets and the exceptions that can raise are not modelled.
- Text inserted into a text widget is split at its newlines, as Tk does: the first piece joins the last line and each further piece starts a new line. Tk's merging of adjacent runs with equal tags is not modelled; runs stay as inserted.
- The streaming model records the widget contents that result, not the order of Tk calls.
- Python strings may hold lone surrogates, for which `encode('utf-8')` (line 82) raises and `copy_html_to_clipboard` returns False through its `except` (lines 129-131). A Dafny `char` is a Unicode scalar value, so this failure path is outside the model.
- The Win32 clipboard calls are not modelled: OpenClipboard, GlobalAlloc, SetClipboardData and the UTF-16 `CF_UNICODETEXT` copy of the plain text. Only the CF_HTML payload bytes are.
- `\d` matches ASCII digits only. Python's `str` patterns also accept other Unicode decimal digits.
- `html.escape` is modelled. The `Unescape` partner exists only to state the round trip.
- The two earlier `parse_table_to_html` definitions at lines 252-313 are dead code, replaced by the one at 332, and are not modelled.
- `get_raw_content` and `get_plain_text` are not modelled. They return a field, or `clean_text` of it, which is modelled.
- The session manager, the Ollama process and HTTP client, and the settings and UI classes are outside the rendering core and are not modelled.
- `_render_formatted` has no horizontal-rule branch: a line of `---`, `***` or `___` is ordinary text there; only `markdown_to_html` emits `<hr>` (lines 182-188).
- Clipboard.PayloadLayout: holds only while EndHTML is below 10^8. Above that the header numerals grow past eight digits and the recorded offsets no longer point at the fragment, as `Clipboard.FinalHeaderLength` shows.
- The renderer's consistency predicate `Valid` is established by the constructor. `UpdateContent` and `SetStreaming`, the public operations, require it and keep it. The private steps they call (`RenderFull`, `UpdatePlainText`, `RerenderAll`, `IncrementalUpdate`) are stated only as their step functions.
