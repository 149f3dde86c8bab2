/** Concrete tables, each proved to render as stated. */
module Scenarios {
  import opened Strings
  import opened Alignments
  import opened Shapes
  import opened Rows
  import opened Tables

  lemma CenterTieBreak()
    ensures Apply(Center, "ab", 5) == "  ab "
  {
    var r := Apply(Center, "ab", 5);
    ApplyLayout(Center, "ab", 5);
    assert r[..2] == "  ";
    assert r[2..4] == "ab";
    assert r[4..] == " ";
    assert r == r[..2] + r[2..4] + r[4..];
  }

  lemma SpacesUpToFour()
    ensures Spaces(1) == " " && Spaces(2) == "  " && Spaces(3) == "   " && Spaces(4) == "    "
  {
    assert Spaces(0) == "";
  }

  lemma LeftCells()
    ensures Apply(Left, "12", 4) == "12  "
    ensures Apply(Left, "abc", 3) == "abc"
    ensures Apply(Left, "1234", 4) == "1234"
    ensures Apply(Left, "", 3) == "   "
  {
    SpacesUpToFour();
  }

  lemma RightCells()
    ensures Apply(Right, "12", 4) == "  12"
    ensures Apply(Right, "abc", 3) == "abc"
    ensures Apply(Right, "1234", 4) == "1234"
    ensures Apply(Right, "a", 3) == "  a"
  {
    SpacesUpToFour();
  }

  lemma CenterCells()
    ensures Apply(Center, "123", 3) == "123"
    ensures Apply(Center, "a", 3) == " a "
    ensures Apply(Center, "1", 3) == " 1 "
    ensures Apply(Center, "abc", 3) == "abc"
  {
    SpacesUpToFour();
  }

  /** A table of two plain rows. */
  lemma TwoPlainRows(first: seq<string>, second: seq<string>, a: Alignment)
    ensures Tables.FromPlainArray([first, second], a)
         == Table([Rows.FromPlainArray(first), Rows.FromPlainArray(second)], a)
  {
  }

  /** The fold for two rows, spelled out. */
  lemma CommonShapeOfTwo(first: Row, second: Row)
    ensures CommonShape([first, second]) == Merge(RowShape(second), Merge(RowShape(first), EmptyShape))
  {
    assert [first, second][..1] == [first];
    assert [first][..0] == [];
    assert CommonShape([first]) == Merge(RowShape(first), CommonShape([]));
  }

  /** The rendering of a two-row table whose common shape has two positions. */
  lemma TwoByTwoCells(t: Table)
    requires |t.rows| == 2
    requires |CommonShape(t.rows).widths| == 2
    ensures
      var w := CommonShape(t.rows).widths;
      var a := t.alignment;
      Tables.AsPlainArray(t)
        == [[Apply(a, ColumnAt(t.rows[0], 0).content, w[0]), Apply(a, ColumnAt(t.rows[0], 1).content, w[1])],
            [Apply(a, ColumnAt(t.rows[1], 0).content, w[0]), Apply(a, ColumnAt(t.rows[1], 1).content, w[1])]]
  {
    var w := CommonShape(t.rows).widths;
    var a := t.alignment;
    var r := Tables.AsPlainArray(t);
    assert r[0] == [Apply(a, ColumnAt(t.rows[0], 0).content, w[0]), Apply(a, ColumnAt(t.rows[0], 1).content, w[1])];
    assert r[1] == [Apply(a, ColumnAt(t.rows[1], 0).content, w[0]), Apply(a, ColumnAt(t.rows[1], 1).content, w[1])];
  }

  /** The three cases of AlignColumns.test.js: rows that already share
      their widths come back unchanged. */
  lemma TestFileCases()
    ensures Tables.AsPlainArray(Tables.FromPlainArray([], DefaultAlignment)) == []
    ensures Tables.AsPlainArray(Tables.FromPlainArray([["1234"]], DefaultAlignment)) == [["1234"]]
    ensures Tables.AsPlainArray(Tables.FromPlainArray([["1234"], ["abcd"]], DefaultAlignment))
         == [["1234"], ["abcd"]]
  {
    var one := Tables.FromPlainArray([["1234"]], DefaultAlignment);
    AlreadyAlignedUnchanged(one, Shape([4]));
    TwoPlainRows(["1234"], ["abcd"], DefaultAlignment);
    var two := Tables.FromPlainArray([["1234"], ["abcd"]], DefaultAlignment);
    AlreadyAlignedUnchanged(two, Shape([4]));
  }

  /** The rendering of a two-row table whose common shape has one position. */
  lemma TwoByOneCells(t: Table)
    requires |t.rows| == 2
    requires |CommonShape(t.rows).widths| == 1
    ensures
      var w := CommonShape(t.rows).widths;
      var a := t.alignment;
      Tables.AsPlainArray(t)
        == [[Apply(a, ColumnAt(t.rows[0], 0).content, w[0])], [Apply(a, ColumnAt(t.rows[1], 0).content, w[0])]]
  {
    var r := Tables.AsPlainArray(t);
    assert |r[0]| == 1 && |r[1]| == 1;
    assert r[0] == [r[0][0]] && r[1] == [r[1][0]];
  }

  /** The shape of rows of widths (4) and (2). */
  lemma ShortShape(first: Row, second: Row)
    requires RowShape(first) == Shape([4])
    requires RowShape(second) == Shape([2])
    ensures CommonShape([first, second]) == Shape([4])
  {
    CommonShapeOfTwo(first, second);
    MergeEmptyIdentity(Shape([4]));
    assert Merge(Shape([2]), Shape([4])).widths == [4];
  }

  /** A narrower cell below a wider one is padded on the right. */
  lemma ShortRowLeft()
    ensures Tables.AsPlainArray(Tables.FromPlainArray([["1234"], ["12"]], Left)) == [["1234"], ["12  "]]
  {
    var row0 := Rows.FromPlainArray(["1234"]);
    var row1 := Rows.FromPlainArray(["12"]);
    TwoPlainRows(["1234"], ["12"], Left);
    ShortShape(row0, row1);
    TwoByOneCells(Table([row0, row1], Left));
    assert ColumnAt(row0, 0).content == "1234";
    assert ColumnAt(row1, 0).content == "12";
    LeftCells();
  }

  /** The shape of rows of widths (2, 3) and (4). */
  lemma RaggedShape(first: Row, second: Row)
    requires RowShape(first) == Shape([2, 3])
    requires RowShape(second) == Shape([4])
    ensures CommonShape([first, second]) == Shape([4, 3])
  {
    CommonShapeOfTwo(first, second);
    MergeEmptyIdentity(Shape([2, 3]));
    assert Merge(Shape([4]), Shape([2, 3])).widths == [4, 3];
  }

  /** A short second row is padded with a blank cell, left-aligned. */
  lemma RaggedLeft()
    ensures Tables.AsPlainArray(Tables.FromPlainArray([["12", "abc"], ["1234"]], Left))
         == [["12  ", "abc"], ["1234", "   "]]
  {
    var row0 := Rows.FromPlainArray(["12", "abc"]);
    var row1 := Rows.FromPlainArray(["1234"]);
    TwoPlainRows(["12", "abc"], ["1234"], Left);
    RaggedShape(row0, row1);
    TwoByTwoCells(Table([row0, row1], Left));
    assert ColumnAt(row0, 0).content == "12";
    assert ColumnAt(row0, 1).content == "abc";
    assert ColumnAt(row1, 0).content == "1234";
    assert ColumnAt(row1, 1).content == "";
    LeftCells();
  }

  /** The shape of rows of widths (2, 3) and (4, 1). */
  lemma FullShape(first: Row, second: Row)
    requires RowShape(first) == Shape([2, 3])
    requires RowShape(second) == Shape([4, 1])
    ensures CommonShape([first, second]) == Shape([4, 3])
  {
    CommonShapeOfTwo(first, second);
    MergeEmptyIdentity(Shape([2, 3]));
    assert Merge(Shape([4, 1]), Shape([2, 3])).widths == [4, 3];
  }

  /** Right alignment pads on the left. */
  lemma FullRight()
    ensures Tables.AsPlainArray(Tables.FromPlainArray([["12", "abc"], ["1234", "a"]], Right))
         == [["  12", "abc"], ["1234", "  a"]]
  {
    var row0 := Rows.FromPlainArray(["12", "abc"]);
    var row1 := Rows.FromPlainArray(["1234", "a"]);
    TwoPlainRows(["12", "abc"], ["1234", "a"], Right);
    FullShape(row0, row1);
    TwoByTwoCells(Table([row0, row1], Right));
    assert ColumnAt(row0, 0).content == "12";
    assert ColumnAt(row0, 1).content == "abc";
    assert ColumnAt(row1, 0).content == "1234";
    assert ColumnAt(row1, 1).content == "a";
    RightCells();
  }

  /** Empty text gives a table without rows, drawn as the bare frame. */
  lemma EmptyTextRendering(a: Alignment)
    ensures Tables.AsPlainArray(FromPlainText("", a)) == []
    ensures Tables.AsPlainText(FromPlainText("", a), DefaultBorderSeparator, DefaultBorderCharacter, DefaultColumnSeparator)
         == "**\n||\n**"
  {
  }

  /** The delimited text of the centred example, parsed. */
  lemma CenteredParse()
    ensures ParsePlainRows("123$a\n1$abc") == [["123", "a"], ["1", "abc"]]
  {
    var rows := [["123", "a"], ["1", "abc"]];
    assert Join(["123", "a"], "$") == "123$a";
    assert Join(["1", "abc"], "$") == "1$abc";
    assert seq(|rows|, i requires 0 <= i < |rows| => Join(rows[i], [CellDelimiter])) == ["123$a", "1$abc"];
    assert Join(["123$a", "1$abc"], "\n") == "123$a\n1$abc";
    assert JoinPlainRows(rows) == "123$a\n1$abc";
    ParseJoin(rows);
  }

  /** The shape of rows of widths (3, 1) and (1, 3). */
  lemma CenteredShape(first: Row, second: Row)
    requires RowShape(first) == Shape([3, 1])
    requires RowShape(second) == Shape([1, 3])
    ensures CommonShape([first, second]) == Shape([3, 3])
  {
    CommonShapeOfTwo(first, second);
    MergeEmptyIdentity(Shape([3, 1]));
    assert Merge(Shape([1, 3]), Shape([3, 1])).widths == [3, 3];
  }

  /** A two-row table as text, line by line. */
  lemma TwoRowText(t: Table, bs: string, bc: string, cs: string)
    requires |t.rows| == 2
    ensures
      var border := BorderLine(t, bs, bc);
      var cells := Tables.AsPlainArray(t);
      Tables.AsPlainText(t, bs, bc, cs)
        == border + "\n" + (cs + Join(cells[0], cs) + cs) + "\n" + (cs + Join(cells[1], cs) + cs) + "\n" + border
  {
    var border := BorderLine(t, bs, bc);
    var lines := RowLines(t, cs);
    RowLinesFromCells(t, cs);
    assert Tables.AsPlainText(t, bs, bc, cs) == Join([border] + lines + [border], "\n");
    FramedTwoLines(border, lines, "\n");
  }

  /** Two lines between two copies of a frame line, joined. */
  lemma FramedTwoLines(frame: string, lines: seq<string>, sep: string)
    requires |lines| == 2
    ensures Join([frame] + lines + [frame], sep) == frame + sep + lines[0] + sep + lines[1] + sep + frame
  {
    assert [frame] + lines + [frame] == [frame, lines[0], lines[1], frame];
    JoinCons(frame, [lines[0], lines[1], frame], sep);
    JoinThree(lines[0], lines[1], frame, sep);
  }

  /** The border line over a two-position common shape. */
  lemma BorderOfTwo(t: Table, bs: string, bc: string, sep: string, first: string, second: string)
    requires |CommonShape(t.rows).widths| == 2
    requires ReplaceChar(bs, ' ', bc) == sep
    requires Repeat(bc, CommonShape(t.rows).widths[0]) == first
    requires Repeat(bc, CommonShape(t.rows).widths[1]) == second
    ensures BorderLine(t, bs, bc) == sep + (first + sep + second) + sep
  {
    BorderLineSegments(t, bs, bc);
    RunsOfTwo(CommonShape(t.rows), bc, sep, first, second);
  }

  lemma RunsOfTwo(shape: Shape, bc: string, sep: string, first: string, second: string)
    requires |shape.widths| == 2
    requires Repeat(bc, shape.widths[0]) == first
    requires Repeat(bc, shape.widths[1]) == second
    ensures Join(BorderRuns(shape, bc), sep) == first + sep + second
  {
    var runs := BorderRuns(shape, bc);
    assert runs == [first, second];
    JoinPair(first, second, sep);
  }

  lemma JoinPair(first: string, second: string, sep: string)
    ensures Join([first, second], sep) == first + sep + second
  {
    assert [first, second][1..] == [second];
  }

  /** The border pieces of the centred example, evaluated on their own. */
  lemma CenteredBorderStrings()
    ensures ReplaceChar("*", ' ', "-") == "*"
    ensures Repeat("-", 3) == "---"
  {
  }

  /** The border line of the centred example, assembled. */
  lemma BorderLiteral()
    ensures "*" + ("---" + "*" + "---") + "*" == "*---*---*"
  {
  }

  lemma CenteredBorder(t: Table)
    requires CommonShape(t.rows) == Shape([3, 3])
    ensures BorderLine(t, "*", "-") == "*---*---*"
  {
    CenteredBorderStrings();
    BorderOfTwo(t, "*", "-", "*", "---", "---");
    BorderLiteral();
  }

  /** The two row lines of the centred example, kept apart from the larger
      proof below so that the literal joins are evaluated on their own. */
  lemma CenteredRowStrings()
    ensures "|" + Join(["123", " a "], "|") + "|" == "|123| a |"
    ensures "|" + Join([" 1 ", "abc"], "|") + "|" == "| 1 |abc|"
  {
  }

  /** The four lines of the centred example, joined. */
  lemma CenteredLines()
    ensures "*---*---*" + "\n" + "|123| a |" + "\n" + "| 1 |abc|" + "\n" + "*---*---*"
         == "*---*---*\n|123| a |\n| 1 |abc|\n*---*---*"
  {
  }

  lemma CenteredTextOf(t: Table)
    requires |t.rows| == 2
    requires CommonShape(t.rows) == Shape([3, 3])
    requires Tables.AsPlainArray(t) == [["123", " a "], [" 1 ", "abc"]]
    ensures Tables.AsPlainText(t, "*", "-", "|") == "*---*---*\n|123| a |\n| 1 |abc|\n*---*---*"
  {
    CenteredBorder(t);
    CenteredRowStrings();
    TwoRowText(t, "*", "-", "|");
    var cells := Tables.AsPlainArray(t);
    var line0 := "|" + Join(cells[0], "|") + "|";
    var line1 := "|" + Join(cells[1], "|") + "|";
    assert line0 == "|123| a |";
    assert line1 == "| 1 |abc|";
    assert Tables.AsPlainText(t, "*", "-", "|") == "*---*---*" + "\n" + line0 + "\n" + line1 + "\n" + "*---*---*";
    CenteredLines();
  }

  /** The table read from the centred example's text. */
  lemma CenteredTable()
    ensures FromPlainText("123$a\n1$abc", Center)
         == Table([Rows.FromPlainArray(["123", "a"]), Rows.FromPlainArray(["1", "abc"])], Center)
  {
    CenteredParse();
    TwoPlainRows(["123", "a"], ["1", "abc"], Center);
  }

  lemma CenteredCells(row0: Row, row1: Row)
    requires row0 == Rows.FromPlainArray(["123", "a"])
    requires row1 == Rows.FromPlainArray(["1", "abc"])
    ensures CommonShape([row0, row1]) == Shape([3, 3])
    ensures Tables.AsPlainArray(Table([row0, row1], Center)) == [["123", " a "], [" 1 ", "abc"]]
  {
    CenteredShape(row0, row1);
    TwoByTwoCells(Table([row0, row1], Center));
    assert ColumnAt(row0, 0).content == "123";
    assert ColumnAt(row0, 1).content == "a";
    assert ColumnAt(row1, 0).content == "1";
    assert ColumnAt(row1, 1).content == "abc";
    CenterCells();
  }

  /** The centred example, parsed from text and rendered as a bordered block
      with the default tokens. */
  lemma CenteredText()
    ensures Tables.AsPlainText(FromPlainText("123$a\n1$abc", Center),
                               DefaultBorderSeparator, DefaultBorderCharacter, DefaultColumnSeparator)
         == "*---*---*\n|123| a |\n| 1 |abc|\n*---*---*"
  {
    var row0 := Rows.FromPlainArray(["123", "a"]);
    var row1 := Rows.FromPlainArray(["1", "abc"]);
    CenteredTable();
    CenteredCells(row0, row1);
    CenteredTextOf(Table([row0, row1], Center));
  }
}
