# AlignColumns in Dafny

A functional model of `src/AlignColumns.js`: the library that lays out rows of text cells in uniformly wide columns and renders them as a nested array of padded strings or as a bordered text block.

The JavaScript classes are modelled as immutable datatypes and pure functions, one module per component:

- `Either` (either.dfy). The `array.either(index).or(default)` helper that AlignColumns.js installs on `Array.prototype`. Here it is the plain function `ElementOrDefault`.
- `Strings` (strings.dfy). The string operations the core uses: `repeat`, `join`, `split` on one character, and `replaceAll` of one character by a string.
- `Alignments` (alignments.dfy). The `Left`, `Right` and `Center` strategies. Each pads a cell with spaces up to a target width.
- `Shapes` (shapes.dfy). `RowShape` as a sequence of widths, and `mergeWith`, the element-wise maximum that extends to the longer shape.
- `Rows` (rows.dfy). `Column` and `Row`: the row's own shape, `alignColumnAt`, and `RowShape.alignRow`, which `Row.align` delegates to. `alignRow` is modelled as the `reduce` it is written as: `AlignPrefix n` is the row after `n` steps. It also holds the two serialisations.
- `Tables` (tables.dfy). The `AlignColumns` class: the common shape folded over all rows, `asPlainArray`, `asPlainText` (border line, row lines, and the frame for a table without rows), and the plain-text parser.
- `Scenarios` (scenarios.dfy). Concrete tables, each proved to render as stated, among them the three cases of `src/AlignColumns.test.js`.

Besides what each operation computes, the model proves several properties:

- The merge is the least upper bound of two shapes. So the common shape is the least shape covering every row, and it does not depend on row order.
- Rendering is a fixed point: a table built from a rendering renders to that same rendering.
- For a table with at least one row, when neither the three tokens nor any cell holds a newline, the text block split at newlines is the border line, then one line per row built from the array rendering, then the border line again. A cell holding a newline splits into extra lines. A table without rows reads back as its three frame lines when neither separator holds a newline (`Tables.EmptyPlainTextLines`).
- The border line is one run of the border character per column.
- Parsing undoes joining with the two delimiters, for at least one row, at least one cell per row, cells free of both delimiters, and a join that is not empty. (`[[""]]` joins to the empty text, which parses to no rows.)

The default tokens of `asPlainText` (`*`, `-`, `|`) and the default alignment (`Left`) are constants.

The model follows AlignColumns.js in these details:

- Padding is always a space. There is no fill-character parameter.
- The border line is an empty row aligned against the common shape, with every space of the whole line (border separator included) replaced by the border character.
- When two shapes have the same length, `mergeWith` treats the other shape as the longer one. The result is the same either way (`Shapes.MergeCommutative`).

## Model

| member | source | states |
|---|---|---|
| Either.ElementOrDefault | src/AlignColumns.js:204-213 | the element at a valid index, the fallback at or past the end |
| Alignments.Apply | src/AlignColumns.js:12-29 | every strategy pads the text to exactly the target width, which must be at least the text's length |
| Alignments.ApplyLayout | src/AlignColumns.js:12-29 | Left: the text, then spaces. Right: spaces, then the text. Center: floor(d/2) spaces on the right and the rest on the left, so an odd padding puts the extra space on the left |
| Alignments.ApplyAtOwnWidth | src/AlignColumns.js:12-29 | padding text to its own length returns it unchanged, for every strategy |
| Alignments.ApplyEmpty | src/AlignColumns.js:12-29 | padding empty text gives a run of spaces of the target width, for every strategy |
| Alignments.ApplyCharacters | src/AlignColumns.js:12-29 | every character of a padded cell is a space or a character of the text |
| Shapes.MergeColumnWidths | src/AlignColumns.js:120-122 | the merged widths have one entry per width of the longer shape |
| Shapes.Merge | src/AlignColumns.js:112-129 | the merge is as long as the longer input; each position holds the larger of the two widths, a missing position counting as 0 |
| Shapes.MergeCommutative | src/AlignColumns.js:112-129 | merging is commutative, so the tie-break on equal lengths does not matter |
| Shapes.MergeEmptyIdentity | src/AlignColumns.js:108-129 | merging with the empty shape, on either side, is the identity |
| Shapes.MergeIdempotent | src/AlignColumns.js:112-129 | merging a shape with itself gives that shape |
| Shapes.MergeAssociative | src/AlignColumns.js:112-129 | merging is associative |
| Shapes.MergeLeastUpperBound | src/AlignColumns.js:112-129 | the merge covers both inputs, and every shape covering both covers the merge |
| Rows.Width | src/AlignColumns.js:43-45 | a cell's width is the length of its text; Rows.RowShape and Rows.AlignColumn state it per cell |
| Rows.AlignColumn | src/AlignColumns.js:39-41 | an aligned cell has exactly the target width |
| Rows.FromPlainArray | src/AlignColumns.js:65-67 | a row built from strings serialises back to those strings; its shape is their lengths |
| Rows.AsPlainArray | src/AlignColumns.js:83-85 | one string per cell, in order: the cell's text |
| Rows.AsPlainText | src/AlignColumns.js:87-90 | the row line opens with the separator, and each of its characters comes from the separator or a cell; for a row with at least one cell and a one-character separator no cell holds, splitting the line on the separator gives back the cells between two empty pieces (Rows.SplitRowText) |
| Rows.ColumnAt | src/AlignColumns.js:92-94 | the cell at an index, or an empty cell past the end of the row |
| Rows.RowShape | src/AlignColumns.js:104-106 | a row's shape has one width per cell, equal to the length of that cell's text |
| Rows.AlignColumnAt | src/AlignColumns.js:73-77 | the cell at the index (an empty cell just past the end) is aligned; every other cell is kept; the row grows by one only when the index is its length |
| Rows.AlignPrefix | src/AlignColumns.js:116-118 | after n steps of the reduce, cells below n are aligned to their widths and later cells are untouched |
| Rows.AlignRow | src/AlignColumns.js:116-118 | the aligned row has one cell per width of the shape, or the row's own count if that is larger; cell i is the original cell (or empty text) padded to width i; cells past the shape are kept |
| Rows.AlignRowShape | src/AlignColumns.js:116-118 | a row aligned against a shape covering its own takes on exactly that shape |
| Rows.AlignToOwnShape | src/AlignColumns.js:116-118 | a row aligned against its own shape is unchanged |
| Rows.AlignRowIdempotent | src/AlignColumns.js:116-118 | aligning twice against the same shape is aligning once |
| Rows.SplitRowText | src/AlignColumns.js:87-90 | for a row with at least one cell and a one-character separator that no cell holds, the row line split on the separator gives the cells, with an empty piece at each end |
| Strings.Repeat | src/AlignColumns.js:189-191 | repeating a string n times gives n times its length, made of its characters |
| Strings.RepeatTwice | src/AlignColumns.js:189-191 | repeating a string twice is writing it twice |
| Strings.Spaces | src/AlignColumns.js:14 | the padding run has the requested length and only spaces |
| Strings.Join | src/AlignColumns.js:88 | the joined text opens with the first piece; which characters it holds is Strings.JoinCharacters |
| Strings.JoinCharacters | src/AlignColumns.js:88 | every character of a joined text comes from the separator or from one of the pieces |
| Strings.Split | src/AlignColumns.js:154 | splitting yields at least one piece; no piece holds the separator; joining the pieces with it gives the text back |
| Strings.SplitJoin | src/AlignColumns.js:154 | splitting undoes joining, for at least one piece and pieces free of the separator |
| Strings.JoinInjective | src/AlignColumns.js:154 | sequences of at least one separator-free piece are determined by their join |
| Strings.ReplaceChar | src/AlignColumns.js:178 | replacement leaves text without the character unchanged; every resulting character comes from the text (not the replaced one) or from the replacement |
| Strings.ReplaceSpaces | src/AlignColumns.js:175-178 | replacing the spaces of n spaces by a string gives that string n times |
| Strings.ReplaceJoin | src/AlignColumns.js:175-178 | replacement distributes over a join, to the pieces and to the separator |
| Tables.CommonShape | src/AlignColumns.js:167-172 | the fold of every row's shape into the empty shape covers every row's shape and fits every row |
| Tables.CommonShapeLeast | src/AlignColumns.js:167-172 | every shape that covers all rows covers the common shape |
| Tables.CommonShapeOrderIndependent | src/AlignColumns.js:167-172 | reordering the rows does not change the common shape |
| Tables.CommonShapeOfUniformRows | src/AlignColumns.js:167-172 | at least one row, all with one shape, have that shape in common |
| Tables.FromPlainArray | src/AlignColumns.js:143-145 | the table holds one row per plain row, serialising back to it, and the given alignment |
| Tables.AlignedRows | src/AlignColumns.js:157-159 | each row aligned against the common shape takes on exactly the common shape |
| Tables.AsPlainArray | src/AlignColumns.js:157-159 | one sequence per row, each as long as the common shape; string j has width j of the shape and is cell j (or empty text) padded by the table's alignment |
| Tables.AlreadyAlignedUnchanged | src/AlignColumns.js:157-159 | rows that already share one shape render to their own texts |
| Tables.RenderIdempotent | src/AlignColumns.js:157-159 | a table built from a rendering renders to that rendering, whatever its alignment |
| Tables.RowLines | src/AlignColumns.js:180-182 | one text line per row |
| Tables.RowLinesFromCells | src/AlignColumns.js:180-182 | row line i is the rendered cells of row i, joined by and enclosed in the column separator |
| Tables.EmptyPlainText | src/AlignColumns.js:187-193 | the frame of a table without rows is two border separators, two column separators and two border separators, joined by newlines |
| Tables.AsPlainText | src/AlignColumns.js:161-165 | a table without rows renders as that frame |
| Tables.BorderLineSegments | src/AlignColumns.js:174-178 | the border line is one run of the border character per column, as long as its width, between and inside copies of the border separator whose own spaces are replaced too |
| Tables.BorderLine | src/AlignColumns.js:174-178 | every character of the border line comes from the border separator or the border character, so a space survives only when one of them holds one; its exact layout is Tables.BorderLineSegments |
| Tables.PlainText | src/AlignColumns.js:174-185 | the text block opens with the border line; its full line structure is Tables.PlainTextLines |
| Tables.PlainTextLines | src/AlignColumns.js:174-185 | when neither the tokens nor any cell holds a newline, read back line by line, the text of a table with rows is the border line, one line per row built from the array rendering, and the border line again |
| Tables.EmptyPlainTextLines | src/AlignColumns.js:187-193 | when neither the border separator nor the column separator holds a newline, the frame of a table without rows read back line by line is its three lines |
| Tables.ParsePlainRows | src/AlignColumns.js:151-155 | empty text gives no rows, and other text at least one. Every row has a cell; no cell holds a delimiter; joining back gives the text |
| Tables.ParseJoin | src/AlignColumns.js:151-155 | parsing undoes joining, for at least one row, at least one cell per row, cells free of both delimiters, and a join that is not the empty text |
| Tables.FromPlainText | src/AlignColumns.js:147-149 | a table read from text has no rows exactly when the text is empty |
| Scenarios.CenterTieBreak | src/AlignColumns.js:24-29 | centring "ab" in width 5 gives "  ab " |
| Scenarios.TestFileCases | src/AlignColumns.test.js:18-32 | no rows render to none; one cell, and two cells of equal width, come back unchanged |
| Scenarios.ShortRowLeft | src/AlignColumns.js:157-159 | rows ("1234") and ("12") render left-aligned as ("1234") and ("12  ") |
| Scenarios.RaggedLeft | src/AlignColumns.js:157-159 | rows ("12", "abc") and ("1234") render left-aligned as ("12  ", "abc") and ("1234", "   ") |
| Scenarios.FullRight | src/AlignColumns.js:157-159 | rows ("12", "abc") and ("1234", "a") render right-aligned as ("  12", "abc") and ("1234", "  a") |
| Scenarios.EmptyTextRendering | src/AlignColumns.js:151-153 | empty text renders to no rows, and to "**", "\|\|", "**" as text |
| Scenarios.CenteredText | src/AlignColumns.js:161-185 | "123$a" / "1$abc", centred, renders as `*---*---*`, `\|123\| a \|`, `\| 1 \|abc\|`, `*---*---*` |

## Left out

- JavaScript plumbing. Classes, private fields, `module.exports`, and the `Array.prototype` extension become datatypes, module-level functions and `ElementOrDefault`. The abstract `Alignment` base class becomes the closed datatype `Alignment`.
- Cached fields. `Row.#shape` and `AlignColumns.#commonRowShape` are computed when needed by `RowShape` and `CommonShape`. Nothing is mutated, so the values are the same.
- The RangeError from `' '.repeat` with a negative count, when a width is smaller than the text. It is a precondition of `Alignments.Apply`, not modelled behaviour. Widths taken from the common shape always meet it (`Tables.CommonShape`).
- Rows.AlignColumnAt: requires the index to be at most the row's length. `alignRow`'s reduce never goes further. JavaScript's sparse arrays for larger indices are not modelled.
- Strings.ReplaceChar: substitutes the border character literally. JavaScript's `replaceAll` interprets `$$`, `$&` and the other `$` patterns in the replacement string. So the model agrees with the source only when the border character holds no `$`.
- `String.split` and `replaceAll` in general. Only splitting on one character and replacing the space character are modelled.
- Default parameter values. They are the constants `DefaultAlignment`, `DefaultBorderSeparator`, `DefaultBorderCharacter` and `DefaultColumnSeparator`.
- UTF-16 code units. A string is a sequence of characters, and its width is its length.
- The test file's own stub `AlignColumns` class. Only its expected values are used (`Scenarios.TestFileCases`).
- I/O. The core has none.
