/**
 * Pipe tables. `MarkdownParser.parse_table_rows` turns the lines of a table
 * into rows of cells for the table widget; `parse_table_to_html` does the
 * same for the clipboard's HTML and renders the rows as an HTML table. Both
 * drop the alignment row (`|---|:--:|`), but they differ in which other
 * lines they accept.
 */
module Tables {
  import opened Text
  import opened InlineHtml

  /** `stripped.startswith('|') and stripped.endswith('|')` */
  predicate Piped(s: string) {
    |s| > 0 && s[0] == '|' && s[|s| - 1] == '|'
  }

  /** `[c.strip() for c in s.split('|')]`: every cell of a line, the outer two included. */
  function Cells(s: string): (r: seq<string>)
    ensures |r| == |Split(s, '|')| && |r| >= 1
  {
    var pieces := Split(s, '|');
    seq(|pieces|, k requires 0 <= k < |pieces| => Strip(pieces[k]))
  }

  /** `cells[1:-1]` */
  function Inner(cells: seq<string>): seq<string> {
    if |cells| < 2 then [] else cells[1..|cells| - 1]
  }

  /** One character of the class `[\-:\s]`. */
  predicate RuleChar(c: char) {
    c == '-' || c == ':' || IsSpace(c)
  }

  /** `re.match(r'^[\-:\s]+$', cell) and '-' in cell` */
  predicate SeparatorCell(cell: string) {
    |cell| > 0 && (forall k :: 0 <= k < |cell| ==> RuleChar(cell[k])) && '-' in cell
  }

  /** `cells and all(...)`: the alignment row under a table's header. */
  predicate SeparatorRow(cells: seq<string>) {
    cells != [] && forall k :: 0 <= k < |cells| ==> SeparatorCell(cells[k])
  }

  // ---- `MarkdownParser.parse_table_rows` ----

  /**
   * What `parse_table_rows` makes of one line: nothing for an alignment row,
   * otherwise the cells between the first and the last pipe-separated piece
   * when there are at least three pieces.
   */
  function RowOf(line: string): Option<seq<string>> {
    var cells := Cells(Strip(line));
    if Piped(Strip(line)) && SeparatorRow(Inner(cells)) then None
    else if |cells| > 2 then Some(cells[1..|cells| - 1])
    else None
  }

  /** The rows of a list of lines, in order. */
  function TableRows(lines: seq<string>): (rows: seq<seq<string>>)
    ensures |rows| <= |lines|
  {
    if lines == [] then []
    else
      var prev := TableRows(lines[..|lines| - 1]);
      match RowOf(lines[|lines| - 1])
      case None => prev
      case Some(row) => prev + [row]
  }

  /** `MarkdownParser.parse_table_rows` */
  method ParseTableRows(lines: seq<string>) returns (rows: seq<seq<string>>)
    ensures rows == TableRows(lines)
  {
    rows := [];
    var i := 0;
    while i < |lines|
      invariant 0 <= i <= |lines| && rows == TableRows(lines[..i])
    {
      var line := lines[i];
      assert lines[..i + 1][..i] == lines[..i];
      var stripped := Strip(line);
      var skip := false;
      if Piped(stripped) {
        var cells := Inner(Cells(stripped));
        if SeparatorRow(cells) {
          skip := true;
        }
      }
      if !skip {
        var cells := Cells(Strip(line));
        if |cells| > 2 {
          rows := rows + [cells[1..|cells| - 1]];
        }
      }
      i := i + 1;
    }
    assert lines[..i] == lines;
  }

  // ---- `parse_table_to_html` ----

  /**
   * What `parse_table_to_html` makes of one line: only lines with a pipe at
   * both ends count, an alignment row is dropped, and any other such line is a
   * row of its inner cells (possibly none).
   */
  function HtmlRowOf(line: string): Option<seq<string>> {
    var stripped := Strip(line);
    if !Piped(stripped) then None
    else
      var cells := Inner(Cells(stripped));
      if SeparatorRow(cells) then None else Some(cells)
  }

  function HtmlRows(lines: seq<string>): (rows: seq<seq<string>>)
    ensures |rows| <= |lines|
  {
    if lines == [] then []
    else
      var prev := HtmlRows(lines[..|lines| - 1]);
      match HtmlRowOf(lines[|lines| - 1])
      case None => prev
      case Some(row) => prev + [row]
  }

  const TableOpen: string := "<table border=\"1\" cellpadding=\"5\" cellspacing=\"0\">"
  const TableClose: string := "</table>"

  /** The cells of one row, each formatted and put in `<th>` or `<td>`. */
  function CellsHtml(row: seq<string>, tag: string): string {
    if row == [] then []
    else CellsHtml(row[..|row| - 1], tag) + "<" + tag + ">" + InlineFormat(row[|row| - 1]) + "</" + tag + ">"
  }

  /** The tag of the row at index idx: the first row is the header. */
  function CellTag(idx: nat): string {
    if idx == 0 then "th" else "td"
  }

  /** The rows, each in `<tr>`, the first with header cells. */
  function RowsHtml(rows: seq<seq<string>>): string {
    if rows == [] then []
    else RowsHtml(rows[..|rows| - 1]) + "<tr>" + CellsHtml(rows[|rows| - 1], CellTag(|rows| - 1)) + "</tr>"
  }

  /** `parse_table_to_html`: an empty string when no row is left, otherwise the whole table. */
  function TableHtml(lines: seq<string>): string {
    var rows := HtmlRows(lines);
    if rows == [] then [] else TableOpen + RowsHtml(rows) + TableClose
  }

  /** The row-collecting loop of `parse_table_to_html`. */
  method CollectHtmlRows(lines: seq<string>) returns (rows: seq<seq<string>>)
    ensures rows == HtmlRows(lines)
  {
    rows := [];
    var i := 0;
    while i < |lines|
      invariant 0 <= i <= |lines| && rows == HtmlRows(lines[..i])
    {
      var line := lines[i];
      assert lines[..i + 1][..i] == lines[..i];
      var stripped := Strip(line);
      if Piped(stripped) {
        var cells := Inner(Cells(stripped));
        if !SeparatorRow(cells) {
          rows := rows + [cells];
        }
      }
      i := i + 1;
    }
    assert lines[..i] == lines;
  }

  /** The cell loop of `parse_table_to_html`: one formatted cell after the other. */
  method RenderCells(row: seq<string>, tag: string) returns (html: string)
    ensures html == CellsHtml(row, tag)
  {
    html := [];
    var c := 0;
    while c < |row|
      invariant 0 <= c <= |row| && html == CellsHtml(row[..c], tag)
    {
      assert row[..c + 1][..c] == row[..c];
      var content := InlineFormat(row[c]);
      assert CellsHtml(row[..c + 1], tag) == html + "<" + tag + ">" + content + "</" + tag + ">";
      html := html + "<" + tag + ">" + content + "</" + tag + ">";
      c := c + 1;
    }
    assert row[..c] == row;
  }

  /** The row loop of `parse_table_to_html`: each row in `<tr>`, header cells first. */
  method RenderRows(rows: seq<seq<string>>) returns (body: string)
    ensures body == RowsHtml(rows)
  {
    body := [];
    var idx := 0;
    while idx < |rows|
      invariant 0 <= idx <= |rows| && body == RowsHtml(rows[..idx])
    {
      var tag := if idx == 0 then "th" else "td";
      var cells := RenderCells(rows[idx], tag);
      assert rows[..idx + 1][..idx] == rows[..idx];
      body := body + "<tr>" + cells + "</tr>";
      idx := idx + 1;
    }
    assert rows[..idx] == rows;
  }

  /** `parse_table_to_html` */
  method ParseTableToHtml(lines: seq<string>) returns (html: string)
    ensures html == TableHtml(lines)
  {
    var rows := CollectHtmlRows(lines);
    if rows == [] {
      return [];
    }
    var body := RenderRows(rows);
    html := TableOpen + body + TableClose;
  }

  // ---- Properties ----

  /** The table line that writes out a row of cells: `|a|b|c|`. */
  function RowLine(cells: seq<string>): string {
    "|" + Join(cells, "|") + "|"
  }

  /** A cell as a table line can hold it: no pipe, no surrounding whitespace. */
  predicate CellOk(cell: string) {
    '|' !in cell && Trimmed(cell)
  }

  lemma {:induction false} JoinSnoc(a: seq<string>, b: string, sep: string)
    requires |a| >= 1
    ensures Join(a + [b], sep) == Join(a, sep) + sep + b
  {
    if |a| == 1 {
      assert (a + [b])[1..] == [b];
    } else {
      assert (a + [b])[1..] == a[1..] + [b];
      JoinSnoc(a[1..], b, sep);
    }
  }

  /** A written-out row is the join of its cells between two empty pieces. */
  lemma JoinRowLine(cells: seq<string>)
    requires |cells| >= 1
    ensures Join([""] + cells + [""], "|") == RowLine(cells)
  {
    var j := Join(cells, "|");
    assert [""] + cells + [""] == [""] + (cells + [""]);
    JoinSnoc(cells, "", "|");
    AppendEmpty(j + "|");
    assert Join(cells + [""], "|") == j + "|";
    JoinCons("", cells + [""], "|");
    AppendEmpty("|");
    assert Join([""] + (cells + [""]), "|") == "|" + (j + "|");
    Assoc("|", j, "|");
  }

  /** Splitting a written-out row gives an empty piece on each side and the cells between them. */
  lemma SplitRowLine(cells: seq<string>)
    requires |cells| >= 1 && forall k :: 0 <= k < |cells| ==> CellOk(cells[k])
    ensures Split(RowLine(cells), '|') == [""] + cells + [""]
  {
    var pieces := [""] + cells + [""];
    JoinRowLine(cells);
    forall k | 0 <= k < |pieces| ensures '|' !in pieces[k] {
      if 0 < k < |pieces| - 1 {
        assert pieces[k] == cells[k - 1];
      }
    }
    SplitJoin(pieces, '|');
  }

  /** The cells of a written-out row are its cells, with an empty one on each side. */
  lemma CellsRowLine(cells: seq<string>)
    requires |cells| >= 1 && forall k :: 0 <= k < |cells| ==> CellOk(cells[k])
    ensures Cells(RowLine(cells)) == [""] + cells + [""]
  {
    var pieces := [""] + cells + [""];
    SplitRowLine(cells);
    var r := Cells(RowLine(cells));
    forall k | 0 <= k < |pieces| ensures r[k] == pieces[k] {
      if 0 < k < |pieces| - 1 {
        assert pieces[k] == cells[k - 1];
        StripTrimmed(cells[k - 1]);
      } else {
        StripTrimmed("");
      }
    }
  }

  /** A written-out row line has a pipe at both ends and no surrounding whitespace. */
  lemma RowLinePiped(cells: seq<string>)
    ensures Piped(RowLine(cells)) && Strip(RowLine(cells)) == RowLine(cells)
  {
    var s := RowLine(cells);
    assert s[0] == '|' && s[|s| - 1] == '|';
    assert !IsSpace('|');
    StripTrimmed(s);
  }

  /** The widget's parser reads a written-out row back as its cells. */
  lemma RowRoundTrip(cells: seq<string>)
    requires |cells| >= 1 && forall k :: 0 <= k < |cells| ==> CellOk(cells[k])
    requires !SeparatorRow(cells)
    ensures RowOf(RowLine(cells)) == Some(cells)
    ensures HtmlRowOf(RowLine(cells)) == Some(cells)
  {
    RowLinePiped(cells);
    CellsRowLine(cells);
    var c := [""] + cells + [""];
    assert c[1..|c| - 1] == cells;
  }

  /** An alignment row is dropped by both parsers. */
  lemma SeparatorDropped(cells: seq<string>)
    requires |cells| >= 1 && forall k :: 0 <= k < |cells| ==> CellOk(cells[k])
    requires SeparatorRow(cells)
    ensures RowOf(RowLine(cells)) == None && HtmlRowOf(RowLine(cells)) == None
  {
    RowLinePiped(cells);
    CellsRowLine(cells);
    var c := [""] + cells + [""];
    assert c[1..|c| - 1] == cells;
  }

  /** The rows of the lines written out from a list of rows. */
  function TableLines(rows: seq<seq<string>>): (lines: seq<string>)
    ensures |lines| == |rows|
    ensures forall k :: 0 <= k < |rows| ==> lines[k] == RowLine(rows[k])
  {
    if rows == [] then [] else TableLines(rows[..|rows| - 1]) + [RowLine(rows[|rows| - 1])]
  }

  /** Well-formed rows: at least one cell, cells a line can hold, and not an alignment row. */
  predicate BodyRows(rows: seq<seq<string>>) {
    forall k :: 0 <= k < |rows| ==>
      |rows[k]| >= 1 && !SeparatorRow(rows[k]) && (forall j :: 0 <= j < |rows[k]| ==> CellOk(rows[k][j]))
  }

  /** Each parser reads a table written out row by row back as those rows. */
  lemma TableRoundTrip(rows: seq<seq<string>>)
    requires BodyRows(rows)
    ensures TableRows(TableLines(rows)) == rows && HtmlRows(TableLines(rows)) == rows
  {
    TableRowsRoundTrip(rows);
    HtmlRowsRoundTrip(rows);
  }

  /** A line the widget parser reads as a row adds that row to the rows before it. */
  lemma TableRowsSnoc(lines: seq<string>, line: string, row: seq<string>)
    requires RowOf(line) == Some(row)
    ensures TableRows(lines + [line]) == TableRows(lines) + [row]
  {
    assert (lines + [line])[..|lines|] == lines;
  }

  /** A line the HTML parser reads as a row adds that row to the rows before it. */
  lemma HtmlRowsSnoc(lines: seq<string>, line: string, row: seq<string>)
    requires HtmlRowOf(line) == Some(row)
    ensures HtmlRows(lines + [line]) == HtmlRows(lines) + [row]
  {
    assert (lines + [line])[..|lines|] == lines;
  }

  /** The rows before the last one are body rows too, and so is the last one. */
  lemma BodyRowsLast(rows: seq<seq<string>>)
    requires BodyRows(rows) && rows != []
    ensures BodyRows(rows[..|rows| - 1])
    ensures var last := rows[|rows| - 1];
      |last| >= 1 && !SeparatorRow(last) && forall j :: 0 <= j < |last| ==> CellOk(last[j])
  {
  }

  lemma {:induction false} TableRowsRoundTrip(rows: seq<seq<string>>)
    requires BodyRows(rows)
    ensures TableRows(TableLines(rows)) == rows
  {
    if rows != [] {
      var prefix, last := rows[..|rows| - 1], rows[|rows| - 1];
      assert TableLines(rows) == TableLines(prefix) + [RowLine(last)];
      BodyRowsLast(rows);
      TableRowsRoundTrip(prefix);
      RowRoundTrip(last);
      TableRowsSnoc(TableLines(prefix), RowLine(last), last);
      assert prefix + [last] == rows;
    }
  }

  lemma {:induction false} HtmlRowsRoundTrip(rows: seq<seq<string>>)
    requires BodyRows(rows)
    ensures HtmlRows(TableLines(rows)) == rows
  {
    if rows != [] {
      var prefix, last := rows[..|rows| - 1], rows[|rows| - 1];
      assert TableLines(rows) == TableLines(prefix) + [RowLine(last)];
      BodyRowsLast(rows);
      HtmlRowsRoundTrip(prefix);
      RowRoundTrip(last);
      HtmlRowsSnoc(TableLines(prefix), RowLine(last), last);
      assert prefix + [last] == rows;
    }
  }



  /** The alignment row under the header leaves the header and the body rows. */
  lemma HeaderSeparatorBody(header: seq<string>, sep: seq<string>, body: seq<seq<string>>)
    requires BodyRows([header] + body)
    requires |sep| >= 1 && SeparatorRow(sep) && forall j :: 0 <= j < |sep| ==> CellOk(sep[j])
    ensures TableRows([RowLine(header), RowLine(sep)] + TableLines(body)) == [header] + body
  {
    assert ([header] + body)[0] == header;
    assert BodyRows([header]) && BodyRows(body) by {
      forall k | 0 <= k < |body| ensures body[k] == ([header] + body)[k + 1] { }
    }
    HeaderThenSeparator(header, sep);
    TableRoundTrip(body);
    TableRowsAppend([RowLine(header), RowLine(sep)], TableLines(body));
  }

  lemma HeaderThenSeparator(header: seq<string>, sep: seq<string>)
    requires BodyRows([header])
    requires |sep| >= 1 && SeparatorRow(sep) && forall j :: 0 <= j < |sep| ==> CellOk(sep[j])
    ensures TableRows([RowLine(header), RowLine(sep)]) == [header]
  {
    var two := [RowLine(header), RowLine(sep)];
    assert two[..1] == [RowLine(header)];
    assert TableRows(two) == TableRows([RowLine(header)]) by {
      SeparatorDropped(sep);
    }
    HeaderRow(header);
  }

  lemma HeaderRow(header: seq<string>)
    requires BodyRows([header])
    ensures TableRows([RowLine(header)]) == [header]
  {
    assert [header][0] == header;
    RowRoundTrip(header);
    assert [RowLine(header)][..0] == [];
  }

  /** The rows of two blocks of lines are the rows of the first, then those of the second. */
  lemma {:induction false} TableRowsAppend(pre: seq<string>, lines: seq<string>)
    ensures TableRows(pre + lines) == TableRows(pre) + TableRows(lines)
    decreases |lines|
  {
    if lines == [] {
      assert pre + lines == pre;
    } else {
      var n := |lines|;
      assert (pre + lines)[..|pre + lines| - 1] == pre + lines[..n - 1];
      assert (pre + lines)[|pre + lines| - 1] == lines[n - 1];
      TableRowsAppend(pre, lines[..n - 1]);
      match RowOf(lines[n - 1])
      case None =>
      case Some(row) => Assoc(TableRows(pre), TableRows(lines[..n - 1]), [row]);
    }
  }

  /** The two parsers agree on every line with a pipe at both ends and at least one inner cell. */
  lemma LineParsersAgree(line: string)
    requires Piped(Strip(line)) && |Cells(Strip(line))| > 2
    ensures RowOf(line) == HtmlRowOf(line)
  {
  }

  /** They differ on the rest: a bare pipe is an empty row for the HTML table only. */
  lemma BarePipe()
    ensures RowOf("|") == None && HtmlRowOf("|") == Some([])
  {
    assert Trimmed("|") by { assert !IsSpace('|'); }
    StripTrimmed("|");
    assert Join(["", ""], "|") == "|";
    SplitJoin(["", ""], '|');
    StripTrimmed("");
    assert Cells("|") == ["", ""];
  }

  /** A line without a pipe is never a row. */
  lemma NoPipeNoRow(line: string)
    requires '|' !in Strip(line)
    ensures RowOf(line) == None && HtmlRowOf(line) == None
  {
    SplitJoin([Strip(line)], '|');
  }

  /** No rows, no table: the HTML is empty exactly when every line was dropped. */
  lemma TableHtmlEmpty(lines: seq<string>)
    ensures TableHtml(lines) == [] <==> HtmlRows(lines) == []
  {
  }
}
