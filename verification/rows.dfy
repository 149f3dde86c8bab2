/** Columns (cells) and rows, and the alignment of a row against a shape
    (`Row.align`, which hands over to `RowShape.alignRow`). */
module Rows {
  import opened Either
  import opened Strings
  import opened Alignments
  import opened Shapes

  /** One cell: its text. Its width is the text's length. */
  datatype Column = Column(content: string)

  const EmptyColumn: Column := Column("")

  /** The width of a cell: the length of its text. */
  function Width(c: Column): (w: nat)
  {
    |c.content|
  }

  /** The cell with its text padded to `width` by `a`. */
  function AlignColumn(c: Column, a: Alignment, width: nat): (r: Column)
    requires Width(c) <= width
    ensures Width(r) == width
  {
    Column(Apply(a, c.content, width))
  }

  /** A row: its cells, in order. Rows of one table may differ in length. */
  datatype Row = Row(columns: seq<Column>)

  const EmptyRow: Row := Row([])

  /** The row holding one cell per string. */
  function FromPlainArray(cells: seq<string>): (r: Row)
    ensures AsPlainArray(r) == cells
    ensures RowShape(r).widths == seq(|cells|, i requires 0 <= i < |cells| => |cells[i]|)
  {
    Row(seq(|cells|, i requires 0 <= i < |cells| => Column(cells[i])))
  }

  /** The texts of the cells, in order. */
  function AsPlainArray(row: Row): (r: seq<string>)
    ensures |r| == |row.columns|
    ensures forall i :: 0 <= i < |r| ==> r[i] == row.columns[i].content
  {
    seq(|row.columns|, i requires 0 <= i < |row.columns| => row.columns[i].content)
  }

  /** The cells' texts with `separator` between them and at both ends: the
      line opens with the separator, and each of its characters comes from
      the separator or from a cell. */
  function AsPlainText(row: Row, separator: string): (r: string)
    ensures separator <= r
    ensures forall d :: d in r ==>
      d in separator || exists i :: 0 <= i < |row.columns| && d in row.columns[i].content
  {
    JoinCharacters(AsPlainArray(row), separator);
    separator + Join(AsPlainArray(row), separator) + separator
  }

  /** The cell at `index`, or an empty cell past the end of the row. */
  function ColumnAt(row: Row, index: nat): (c: Column)
    ensures index < |row.columns| ==> c == row.columns[index]
    ensures |row.columns| <= index ==> c == EmptyColumn
  {
    ElementOrDefault(row.columns, index, EmptyColumn)
  }

  /** The row's own shape: the width of each of its cells. */
  function RowShape(row: Row): (s: Shape)
    ensures |s.widths| == |row.columns|
    ensures forall i :: 0 <= i < |s.widths| ==> s.widths[i] == Width(row.columns[i])
  {
    Shape(seq(|row.columns|, i requires 0 <= i < |row.columns| => Width(row.columns[i])))
  }

  /** Every width of `shape` is at least the width of the row's cell at
      that position (a missing cell having width 0), so that aligning the
      row against `shape` never asks to shrink a cell. */
  predicate Fits(shape: Shape, row: Row)
  {
    forall i :: 0 <= i < |shape.widths| ==> Width(ColumnAt(row, i)) <= shape.widths[i]
  }

  /** A shape that covers the row's own shape fits the row. */
  lemma CoversFits(shape: Shape, row: Row)
    requires Covers(shape, RowShape(row))
    ensures Fits(shape, row)
    ensures |row.columns| <= |shape.widths|
  {
  }

  /** The row with the cell at `index` (an empty cell when `index` is just
      past the end) aligned to `width`; every other cell is kept. */
  function AlignColumnAt(row: Row, index: nat, a: Alignment, width: nat): (r: Row)
    requires index <= |row.columns|
    requires Width(ColumnAt(row, index)) <= width
    ensures |r.columns| == Max(|row.columns|, index + 1)
    ensures r.columns[index] == AlignColumn(ColumnAt(row, index), a, width)
    ensures forall i :: 0 <= i < |row.columns| && i != index ==> r.columns[i] == row.columns[i]
  {
    var aligned := AlignColumn(ColumnAt(row, index), a, width);
    if index < |row.columns| then Row(row.columns[index := aligned])
    else Row(row.columns + [aligned])
  }

  /** The row after the first `n` steps of AlignColumns.js's
      `reduce` over the shape's widths, step `i` aligning cell `i`. */
  function AlignPrefix(shape: Shape, row: Row, a: Alignment, n: nat): (r: Row)
    requires n <= |shape.widths|
    requires Fits(shape, row)
    ensures |r.columns| == Max(|row.columns|, n)
    ensures forall i :: 0 <= i < n ==>
      r.columns[i] == AlignColumn(ColumnAt(row, i), a, shape.widths[i])
    ensures forall i :: n <= i < |row.columns| ==> r.columns[i] == row.columns[i]
    decreases n
  {
    if n == 0 then row
    else
      var previous := AlignPrefix(shape, row, a, n - 1);
      assert ColumnAt(previous, n - 1) == ColumnAt(row, n - 1);
      AlignColumnAt(previous, n - 1, a, shape.widths[n - 1])
  }

  /** The row aligned against `shape`: one cell per width of the shape,
      cell `i` (an empty cell where the row is shorter) padded to width `i`
      by `a`. Cells beyond the end of the shape are left as they are. */
  function AlignRow(shape: Shape, row: Row, a: Alignment): (r: Row)
    requires Fits(shape, row)
    ensures |r.columns| == Max(|row.columns|, |shape.widths|)
    ensures forall i :: 0 <= i < |shape.widths| ==>
      && Width(r.columns[i]) == shape.widths[i]
      && r.columns[i].content == Apply(a, ColumnAt(row, i).content, shape.widths[i])
    ensures forall i :: |shape.widths| <= i < |row.columns| ==> r.columns[i] == row.columns[i]
  {
    AlignPrefix(shape, row, a, |shape.widths|)
  }

  /** A row aligned against a shape covering it takes on exactly that shape. */
  lemma AlignRowShape(shape: Shape, row: Row, a: Alignment)
    requires Covers(shape, RowShape(row))
    ensures Fits(shape, row)
    ensures RowShape(AlignRow(shape, row, a)) == shape
  {
    CoversFits(shape, row);
  }

  /** A row aligned against its own shape is unchanged. */
  lemma AlignToOwnShape(row: Row, a: Alignment)
    ensures Fits(RowShape(row), row)
    ensures AlignRow(RowShape(row), row, a) == row
  {
    var r := AlignRow(RowShape(row), row, a);
    forall i | 0 <= i < |row.columns|
      ensures r.columns[i] == row.columns[i]
    {
      ApplyAtOwnWidth(a, row.columns[i].content);
    }
  }

  /** Aligning twice against the same shape is aligning once. */
  lemma AlignRowIdempotent(shape: Shape, row: Row, a: Alignment)
    requires Fits(shape, row)
    ensures Fits(shape, AlignRow(shape, row, a))
    ensures AlignRow(shape, AlignRow(shape, row, a), a) == AlignRow(shape, row, a)
  {
    var once := AlignRow(shape, row, a);
    var twice := AlignRow(shape, once, a);
    forall i | 0 <= i < |twice.columns|
      ensures twice.columns[i] == once.columns[i]
    {
      if i < |shape.widths| {
        ApplyAtOwnWidth(a, once.columns[i].content);
      }
    }
  }

  /** A row line split on its (one-character) separator gives back the
      cells, between an empty piece at each end. */
  lemma SplitRowText(row: Row, c: char)
    requires |row.columns| > 0
    requires forall i :: 0 <= i < |row.columns| ==> c !in row.columns[i].content
    ensures Split(AsPlainText(row, [c]), c) == [""] + AsPlainArray(row) + [""]
  {
    var cells := AsPlainArray(row);
    var pieces := [""] + cells + [""];
    calc {
      Join(pieces, [c]);
    == { JoinCons("", cells + [""], [c]); assert pieces == [""] + (cells + [""]); }
      [c] + Join(cells + [""], [c]);
    == { JoinSnoc(cells, "", [c]); }
      AsPlainText(row, [c]);
    }
    SplitJoin(pieces, c);
  }
}
