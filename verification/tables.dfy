/** The table (`AlignColumns` in AlignColumns.js): rows plus an alignment, the
    common shape every row is aligned against, the two renderers (a nested
    array of strings and a bordered text block) and the plain-text parser. */
module Tables {
  import opened Strings
  import opened Alignments
  import opened Shapes
  import opened Rows

  datatype Table = Table(rows: seq<Row>, alignment: Alignment)

  /** The tokens the text renderer uses when none are given. */
  const DefaultBorderSeparator: string := "*"
  const DefaultBorderCharacter: string := "-"
  const DefaultColumnSeparator: string := "|"

  /** The separators the plain-text parser splits on. */
  const RowDelimiter: char := '\n'
  const CellDelimiter: char := '$'

  /** The merge of every row's own shape, folded left to right from the
      empty shape, each row's shape merged with the shape so far. It covers
      the shape of every row. */
  function CommonShape(rows: seq<Row>): (s: Shape)
    ensures forall row :: row in rows ==> Covers(s, RowShape(row))
    ensures forall i :: 0 <= i < |rows| ==> Fits(s, rows[i])
    decreases |rows|
  {
    if |rows| == 0 then EmptyShape
    else
      var last := rows[|rows| - 1];
      var previous := CommonShape(rows[..|rows| - 1]);
      var merged := Merge(RowShape(last), previous);
      assert rows == rows[..|rows| - 1] + [last];
      MergeLeastUpperBound(RowShape(last), previous, previous);
      CoversTransitiveOverRows(merged, previous, rows[..|rows| - 1]);
      RowsFit(merged, rows);
      merged
  }

  lemma CoversTransitiveOverRows(big: Shape, middle: Shape, rows: seq<Row>)
    requires Covers(big, middle)
    requires forall row :: row in rows ==> Covers(middle, RowShape(row))
    ensures forall row :: row in rows ==> Covers(big, RowShape(row))
  {
    forall row | row in rows
      ensures Covers(big, RowShape(row))
    {
      CoversTransitive(big, middle, RowShape(row));
    }
  }

  /** A shape covering every row's shape fits every row. */
  lemma RowsFit(shape: Shape, rows: seq<Row>)
    requires forall row :: row in rows ==> Covers(shape, RowShape(row))
    ensures forall i :: 0 <= i < |rows| ==> Fits(shape, rows[i])
  {
    forall i | 0 <= i < |rows|
      ensures Fits(shape, rows[i])
    {
      assert rows[i] in rows;
      CoversFits(shape, rows[i]);
    }
  }

  /** The common shape is the least shape covering every row: any shape that
      covers every row's shape covers it too. */
  lemma {:induction false} CommonShapeLeast(rows: seq<Row>, bound: Shape)
    requires forall row :: row in rows ==> Covers(bound, RowShape(row))
    ensures Covers(bound, CommonShape(rows))
    decreases |rows|
  {
    if |rows| > 0 {
      var last := rows[|rows| - 1];
      var previous := CommonShape(rows[..|rows| - 1]);
      CommonShapeLeast(rows[..|rows| - 1], bound);
      MergeLeastUpperBound(RowShape(last), previous, bound);
    }
  }

  /** The common shape does not depend on the order of the rows. */
  lemma CommonShapeOrderIndependent(rows: seq<Row>, reordered: seq<Row>)
    requires multiset(rows) == multiset(reordered)
    ensures CommonShape(rows) == CommonShape(reordered)
  {
    forall row | row in reordered
      ensures row in rows
    {
      assert row in multiset(reordered);
    }
    forall row | row in rows
      ensures row in reordered
    {
      assert row in multiset(rows);
    }
    CommonShapeLeast(reordered, CommonShape(rows));
    CommonShapeLeast(rows, CommonShape(reordered));
    CoversAntisymmetric(CommonShape(rows), CommonShape(reordered));
  }

  /** Rows that all have the same shape have that shape in common. */
  lemma CommonShapeOfUniformRows(rows: seq<Row>, shape: Shape)
    requires |rows| > 0
    requires forall row :: row in rows ==> RowShape(row) == shape
    ensures CommonShape(rows) == shape
  {
    assert rows[0] in rows;
    CoversReflexive(shape);
    CommonShapeLeast(rows, shape);
    CoversAntisymmetric(CommonShape(rows), shape);
  }

  /** The common shape fits every row and is at least as long as each. */
  lemma CommonShapeFitsRows(rows: seq<Row>)
    ensures forall i :: 0 <= i < |rows| ==>
      Fits(CommonShape(rows), rows[i]) && |rows[i].columns| <= |CommonShape(rows).widths|
  {
    forall i | 0 <= i < |rows|
      ensures Fits(CommonShape(rows), rows[i]) && |rows[i].columns| <= |CommonShape(rows).widths|
    {
      assert rows[i] in rows;
      CoversFits(CommonShape(rows), rows[i]);
    }
  }

  /** The table built from rows of plain strings. */
  function FromPlainArray(plainRows: seq<seq<string>>, a: Alignment): (t: Table)
    ensures |t.rows| == |plainRows|
    ensures forall i :: 0 <= i < |plainRows| ==> Rows.AsPlainArray(t.rows[i]) == plainRows[i]
    ensures t.alignment == a
  {
    Table(seq(|plainRows|, i requires 0 <= i < |plainRows| => Rows.FromPlainArray(plainRows[i])), a)
  }

  /** Every row of the table aligned against the common shape with the
      table's alignment. */
  function AlignedRows(t: Table): (r: seq<Row>)
    ensures |r| == |t.rows|
    ensures forall i :: 0 <= i < |r| ==> RowShape(r[i]) == CommonShape(t.rows)
  {
    var shape := CommonShape(t.rows);
    CommonShapeFitsRows(t.rows);
    seq(|t.rows|, i requires 0 <= i < |t.rows| => AlignRow(shape, t.rows[i], t.alignment))
  }

  /** The aligned cells' texts, one sequence per row. Every row, however
      many cells it had, comes out with one string per position of the common
      shape, string `j` being cell `j` (or empty text) padded to width `j`. */
  function AsPlainArray(t: Table): (r: seq<seq<string>>)
    ensures |r| == |t.rows|
    ensures forall i :: 0 <= i < |r| ==> |r[i]| == |CommonShape(t.rows).widths|
    ensures forall i, j :: 0 <= i < |r| && 0 <= j < |r[i]| ==>
      |r[i][j]| == CommonShape(t.rows).widths[j]
    ensures forall i, j :: 0 <= i < |r| && 0 <= j < |r[i]| ==>
      r[i][j] == Apply(t.alignment, ColumnAt(t.rows[i], j).content, CommonShape(t.rows).widths[j])
  {
    var aligned := AlignedRows(t);
    CommonShapeFitsRows(t.rows);
    seq(|aligned|, i requires 0 <= i < |aligned| => Rows.AsPlainArray(aligned[i]))
  }

  /** Rows that already share one shape come out unchanged. */
  lemma AlreadyAlignedUnchanged(t: Table, shape: Shape)
    requires forall row :: row in t.rows ==> RowShape(row) == shape
    ensures AsPlainArray(t) == seq(|t.rows|, i requires 0 <= i < |t.rows| => Rows.AsPlainArray(t.rows[i]))
  {
    var r := AsPlainArray(t);
    if |t.rows| > 0 {
      CommonShapeOfUniformRows(t.rows, shape);
      forall i | 0 <= i < |r|
        ensures r[i] == Rows.AsPlainArray(t.rows[i])
      {
        assert t.rows[i] in t.rows;
        AlignToOwnShape(t.rows[i], t.alignment);
        assert AlignedRows(t)[i] == t.rows[i];
      }
    }
  }

  /** Rendering is a fixed point: a table built from a rendering renders to
      that same rendering, whatever its alignment. */
  lemma RenderIdempotent(t: Table, a: Alignment)
    ensures AsPlainArray(FromPlainArray(AsPlainArray(t), a)) == AsPlainArray(t)
  {
    var rendered := AsPlainArray(t);
    var again := FromPlainArray(rendered, a);
    var shape := CommonShape(t.rows);
    forall row | row in again.rows
      ensures RowShape(row) == shape
    {
      var i :| 0 <= i < |again.rows| && again.rows[i] == row;
      assert Rows.AsPlainArray(row) == rendered[i];
    }
    AlreadyAlignedUnchanged(again, shape);
  }

  /** The border line: an empty row aligned against the common shape (so a
      run of spaces per position), written with `borderSeparator` between and
      around the runs, then every space of the whole line replaced by
      `borderCharacter` (spaces inside `borderSeparator` included). */
  function BorderLine(t: Table, borderSeparator: string, borderCharacter: string): (r: string)
    ensures forall d :: d in r ==> d in borderSeparator || d in borderCharacter
  {
    var shape := CommonShape(t.rows);
    BlankLineCharacters(shape, t.alignment, borderSeparator);
    ReplaceChar(Rows.AsPlainText(AlignRow(shape, EmptyRow, t.alignment), borderSeparator), ' ', borderCharacter)
  }

  /** Every cell of the empty row aligned against a shape is all spaces. */
  lemma BlankCellsAreSpaces(shape: Shape, a: Alignment)
    ensures var blank := AlignRow(shape, EmptyRow, a);
      forall j :: 0 <= j < |blank.columns| ==> AllSpaces(blank.columns[j].content)
  {
    var blank := AlignRow(shape, EmptyRow, a);
    forall j | 0 <= j < |blank.columns|
      ensures AllSpaces(blank.columns[j].content)
    {
      ApplyEmpty(a, shape.widths[j]);
    }
  }

  /** Apart from spaces, the empty row aligned against a shape and written
      with a separator holds only characters of the separator. */
  lemma BlankLineCharacters(shape: Shape, a: Alignment, separator: string)
    ensures forall d :: d in Rows.AsPlainText(AlignRow(shape, EmptyRow, a), separator) && d != ' ' ==> d in separator
  {
    var blank := AlignRow(shape, EmptyRow, a);
    BlankCellsAreSpaces(shape, a);
    forall d | d in Rows.AsPlainText(blank, separator) && d != ' '
      ensures d in separator
    {
      forall j | 0 <= j < |blank.columns|
        ensures d !in blank.columns[j].content
      {
        assert AllSpaces(blank.columns[j].content);
      }
    }
  }

  /** One line per row: its aligned cells between column separators. */
  function RowLines(t: Table, columnSeparator: string): (r: seq<string>)
    ensures |r| == |t.rows|
  {
    var aligned := AlignedRows(t);
    seq(|aligned|, i requires 0 <= i < |aligned| => Rows.AsPlainText(aligned[i], columnSeparator))
  }

  /** The frame drawn for a table without rows. */
  function EmptyPlainText(borderSeparator: string, columnSeparator: string): (r: string)
    ensures r == borderSeparator + borderSeparator + "\n"
               + columnSeparator + columnSeparator + "\n"
               + borderSeparator + borderSeparator
  {
    var border := Repeat(borderSeparator, 2);
    var columns := Repeat(columnSeparator, 2);
    RepeatTwice(borderSeparator);
    RepeatTwice(columnSeparator);
    JoinThree(border, columns, border, "\n");
    Join([border, columns, border], "\n")
  }

  /** The border line, the row lines, the border line again, one per line;
      the text opens with the border line. */
  function PlainText(t: Table, borderSeparator: string, borderCharacter: string, columnSeparator: string): (r: string)
    ensures BorderLine(t, borderSeparator, borderCharacter) <= r
  {
    var border := BorderLine(t, borderSeparator, borderCharacter);
    Join([border] + RowLines(t, columnSeparator) + [border], "\n")
  }

  /** The bordered text block. A table without rows gives a fixed frame: two
      border separators, two column separators and two border separators,
      joined by newlines. */
  function AsPlainText(t: Table, borderSeparator: string, borderCharacter: string, columnSeparator: string): (r: string)
    ensures |t.rows| == 0 ==>
      r == borderSeparator + borderSeparator + "\n"
         + columnSeparator + columnSeparator + "\n"
         + borderSeparator + borderSeparator
  {
    if |t.rows| == 0 then EmptyPlainText(borderSeparator, columnSeparator)
    else PlainText(t, borderSeparator, borderCharacter, columnSeparator)
  }

  /** One run of `borderCharacter` per position of `shape`, as long as the
      width there. */
  function BorderRuns(shape: Shape, borderCharacter: string): seq<string>
  {
    seq(|shape.widths|, j requires 0 <= j < |shape.widths| => Repeat(borderCharacter, shape.widths[j]))
  }

  /** The border line consists of one run of `borderCharacter` per position
      of the common shape, as long as the width there, with the border
      separator (its spaces replaced too) between and around the runs. */
  lemma BorderLineSegments(t: Table, borderSeparator: string, borderCharacter: string)
    ensures
      var sep := ReplaceChar(borderSeparator, ' ', borderCharacter);
      BorderLine(t, borderSeparator, borderCharacter)
        == sep + Join(BorderRuns(CommonShape(t.rows), borderCharacter), sep) + sep
  {
    var shape := CommonShape(t.rows);
    var sep := ReplaceChar(borderSeparator, ' ', borderCharacter);
    var blank := AlignRow(shape, EmptyRow, t.alignment);
    var cells := Rows.AsPlainArray(blank);
    var replaced := seq(|cells|, i requires 0 <= i < |cells| => ReplaceChar(cells[i], ' ', borderCharacter));
    var runs := BorderRuns(shape, borderCharacter);
    forall j | 0 <= j < |cells|
      ensures replaced[j] == runs[j]
    {
      ApplyEmpty(t.alignment, shape.widths[j]);
      ReplaceSpaces(shape.widths[j], borderCharacter);
    }
    assert replaced == runs;
    ReplaceConcat(borderSeparator + Join(cells, borderSeparator), borderSeparator, ' ', borderCharacter);
    ReplaceConcat(borderSeparator, Join(cells, borderSeparator), ' ', borderCharacter);
    ReplaceJoin(cells, borderSeparator, ' ', borderCharacter);
  }

  /** A row line holds no newline when neither the column separator nor any
      of the row's cells does. */
  lemma RowLineFreeOfNewlines(t: Table, columnSeparator: string, i: nat)
    requires i < |t.rows|
    requires '\n' !in columnSeparator
    requires forall j :: 0 <= j < |t.rows[i].columns| ==> '\n' !in t.rows[i].columns[j].content
    ensures '\n' !in RowLines(t, columnSeparator)[i]
  {
    var shape := CommonShape(t.rows);
    var aligned := AlignedRows(t)[i];
    forall j | 0 <= j < |aligned.columns|
      ensures '\n' !in aligned.columns[j].content
    {
      if '\n' in aligned.columns[j].content {
        ApplyCharacters(t.alignment, ColumnAt(t.rows[i], j).content, shape.widths[j], '\n');
      }
    }
    JoinExcludes(Rows.AsPlainArray(aligned), columnSeparator, '\n');
  }

  /** The text block, read back line by line: the border line, then per row
      the rendered cells of that row between column separators, then the
      border line again. */
  lemma PlainTextLines(t: Table, borderSeparator: string, borderCharacter: string, columnSeparator: string)
    requires |t.rows| > 0
    requires '\n' !in borderSeparator && '\n' !in borderCharacter && '\n' !in columnSeparator
    requires forall row, j :: row in t.rows && 0 <= j < |row.columns| ==> '\n' !in row.columns[j].content
    ensures
      var border := BorderLine(t, borderSeparator, borderCharacter);
      var cells := AsPlainArray(t);
      Split(AsPlainText(t, borderSeparator, borderCharacter, columnSeparator), '\n')
        == [border]
         + seq(|cells|, i requires 0 <= i < |cells| => columnSeparator + Join(cells[i], columnSeparator) + columnSeparator)
         + [border]
  {
    var lines := [BorderLine(t, borderSeparator, borderCharacter)] + RowLines(t, columnSeparator)
               + [BorderLine(t, borderSeparator, borderCharacter)];
    LinesFreeOfNewlines(t, borderSeparator, borderCharacter, columnSeparator);
    SplitJoin(lines, '\n');
    RowLinesFromCells(t, columnSeparator);
  }

  /** No line of the text block of a table with rows holds a newline when
      neither the tokens nor any cell do. */
  lemma LinesFreeOfNewlines(t: Table, borderSeparator: string, borderCharacter: string, columnSeparator: string)
    requires '\n' !in borderSeparator && '\n' !in borderCharacter && '\n' !in columnSeparator
    requires forall row, j :: row in t.rows && 0 <= j < |row.columns| ==> '\n' !in row.columns[j].content
    ensures
      var lines := [BorderLine(t, borderSeparator, borderCharacter)] + RowLines(t, columnSeparator)
                 + [BorderLine(t, borderSeparator, borderCharacter)];
      forall i :: 0 <= i < |lines| ==> '\n' !in lines[i]
  {
    var rowLines := RowLines(t, columnSeparator);
    forall k | 0 <= k < |rowLines|
      ensures '\n' !in rowLines[k]
    {
      assert t.rows[k] in t.rows;
      RowLineFreeOfNewlines(t, columnSeparator, k);
    }
    FramedLinesFree(BorderLine(t, borderSeparator, borderCharacter), rowLines, '\n');
  }

  /** Lines framed by a line without `c` hold no `c` when none of them does. */
  lemma FramedLinesFree(frame: string, lines: seq<string>, c: char)
    requires c !in frame
    requires forall k :: 0 <= k < |lines| ==> c !in lines[k]
    ensures forall i :: 0 <= i < |[frame] + lines + [frame]| ==> c !in ([frame] + lines + [frame])[i]
  {
  }

  /** Row line `i` is the rendered cells of row `i` between column separators. */
  lemma RowLinesFromCells(t: Table, columnSeparator: string)
    ensures
      var cells := AsPlainArray(t);
      RowLines(t, columnSeparator)
        == seq(|cells|, i requires 0 <= i < |cells| => columnSeparator + Join(cells[i], columnSeparator) + columnSeparator)
  {
  }

  /** The frame of a table without rows, read back line by line. */
  lemma EmptyPlainTextLines(t: Table, borderSeparator: string, borderCharacter: string, columnSeparator: string)
    requires |t.rows| == 0
    requires '\n' !in borderSeparator && '\n' !in columnSeparator
    ensures Split(AsPlainText(t, borderSeparator, borderCharacter, columnSeparator), '\n')
         == [borderSeparator + borderSeparator, columnSeparator + columnSeparator, borderSeparator + borderSeparator]
  {
    var lines := [borderSeparator + borderSeparator, columnSeparator + columnSeparator, borderSeparator + borderSeparator];
    JoinThree(lines[0], lines[1], lines[2], "\n");
    assert lines == [lines[0], lines[1], lines[2]];
    assert AsPlainText(t, borderSeparator, borderCharacter, columnSeparator) == Join(lines, ['\n']);
    SplitJoin(lines, '\n');
  }

  /** The rows joined back into text: cells joined by the cell delimiter,
      rows by the row delimiter. */
  function JoinPlainRows(plainRows: seq<seq<string>>): string
  {
    Join(seq(|plainRows|, i requires 0 <= i < |plainRows| => Join(plainRows[i], [CellDelimiter])), [RowDelimiter])
  }

  /** Text cut into rows at newlines and each row into cells at '$'. Empty
      text gives no rows at all; any other text gives at least one row of at
      least one cell, the cells hold neither delimiter, and joining them back
      gives the text. */
  function ParsePlainRows(text: string): (r: seq<seq<string>>)
    ensures text == "" <==> r == []
    ensures forall i :: 0 <= i < |r| ==> |r[i]| >= 1
    ensures forall i, j :: 0 <= i < |r| && 0 <= j < |r[i]| ==>
      RowDelimiter !in r[i][j] && CellDelimiter !in r[i][j]
    ensures text != "" ==> JoinPlainRows(r) == text
  {
    if |text| == 0 then []
    else
      var lines := Split(text, RowDelimiter);
      var r := seq(|lines|, i requires 0 <= i < |lines| => Split(lines[i], CellDelimiter));
      forall i, j | 0 <= i < |r| && 0 <= j < |r[i]|
        ensures RowDelimiter !in r[i][j]
      {
        if RowDelimiter in r[i][j] {
          JoinIncludes(r[i], [CellDelimiter], j, RowDelimiter);
        }
      }
      assert seq(|r|, i requires 0 <= i < |r| => Join(r[i], [CellDelimiter])) == lines;
      r
  }

  /** Parsing undoes joining, for rows of delimiter-free cells that do not
      join to the empty text (a single row holding one empty cell does, and
      parses to no rows at all). */
  lemma ParseJoin(plainRows: seq<seq<string>>)
    requires |plainRows| >= 1
    requires forall i :: 0 <= i < |plainRows| ==> |plainRows[i]| >= 1
    requires forall i, j :: 0 <= i < |plainRows| && 0 <= j < |plainRows[i]| ==>
      RowDelimiter !in plainRows[i][j] && CellDelimiter !in plainRows[i][j]
    requires JoinPlainRows(plainRows) != ""
    ensures ParsePlainRows(JoinPlainRows(plainRows)) == plainRows
  {
    var lines := seq(|plainRows|, i requires 0 <= i < |plainRows| => Join(plainRows[i], [CellDelimiter]));
    forall i | 0 <= i < |lines|
      ensures RowDelimiter !in lines[i]
    {
      JoinExcludes(plainRows[i], [CellDelimiter], RowDelimiter);
    }
    SplitJoin(lines, RowDelimiter);
    forall i | 0 <= i < |plainRows|
      ensures Split(lines[i], CellDelimiter) == plainRows[i]
    {
      SplitJoin(plainRows[i], CellDelimiter);
    }
  }

  /** The table read from delimited text. */
  function FromPlainText(text: string, a: Alignment): (t: Table)
    ensures text == "" <==> |t.rows| == 0
    ensures t.alignment == a
  {
    FromPlainArray(ParsePlainRows(text), a)
  }
}
