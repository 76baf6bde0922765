# sarcos_quiz in Dafny

A model of the two small cores of the sarcos_quiz library, with proofs.

- The 3×3 matrix helpers of `src/sarcos/math.cpp`: dot product, in-place transpose by three swaps, and copy field by field.
- The column-alignment pretty printer of `src/sarcos/prettyprinter.cpp`. It measures the fixed-point text of each number, pads every number on the left to a column width (never cutting it), and prints:
  - a vector with its own widths;
  - a matrix through a transposed private copy, with one width triple shared by all three display rows;
  - a chain of nodes recursively, with an arrow block between a node and its child.

Files (one module each):

- `optional.dfy`: the `Option` type. `None` stands for a null child pointer and for a text that does not parse.
- `math.dfy` (module `Math`):
  - `Vec3`; `Mat33` as the value of its three columns; `Node`.
  - `DotProduct`.
  - `Transposed`, the reference definition of the transpose.
  - `TransposeMat` on three-slot column storage (`array<Vec3>`) that it changes in place.
  - `CopyMat`, which fills fresh column storage in a loop.
- `fixed.dfy` (module `Fixed`):
  - `Fmt(v, p)`, the fixed-point text that `std::fixed` with `setprecision(p)` writes: an optional `-`, the integer digits, then `.` and exactly `p` fraction digits (no `.` when `p` is 0).
  - `ParseFixed`, its inverse, for the round trip.
- `printer.dfy` (module `Printer`):
  - the text functions that define what each print writes: `Pad`, `StrSize`, `MaxSize`, `RowText`, `VecText`, `MatText`, `Separator`, `NodeText`;
  - the class `PrettyPrinter`, with fields `widthBuffer` and `precision` and the output `out`. Every print method appends to `out`.
- `laws.dfy` (module `Laws`): what the output promises. Fields are never cut. Matrix columns line up. The arrow block has a fixed shape. A chain prints one block per node with one arrow between each two neighbours.

Scalars are exact reals, so the algebraic laws hold exactly.

Sizing and printing share one text function. `StrSize(v, p)` is `|Fmt(v, p)|`, and every printed field is `Pad(Fmt(v, p), w)`. This is the property the source relies on when it measures a number with a string stream and prints it with the same manipulators.

The node chain is a recursive datatype, so it is finite and acyclic by construction.

## Model

| member | source | states |
|---|---|---|
| Math.DotProduct | src/sarcos/math.cpp:8-11 | dotProduct on exact reals; DotProductIsSumOfProducts and the laws below state what it computes |
| Math.DotProductIsSumOfProducts | src/sarcos/math.cpp:8-11 | the dot product is the sum, over the component indices 0, 1 and 2, of the products of matching components |
| Math.DotProductCommutes | src/sarcos/math.cpp:10 | swapping the two vectors does not change the dot product |
| Math.DotProductLinear | src/sarcos/math.cpp:10 | the dot product is linear in its first argument: it distributes over a componentwise sum and takes out a scalar factor; with DotProductCommutes it is bilinear |
| Math.DotProductWithZero | test/math_test.cpp:40-43 | the dot product with the zero vector is 0, on either side |
| Math.DotProductSelfNonNegative | src/sarcos/math.cpp:10 | a vector's dot product with itself is never negative |
| Math.DotProductExamples | test/math_test.cpp:40-54 | 0·0 = 0, {1,2,3}·{4,5,6} = 32 and {1,2,3}·{-4,-5,6} = 4 |
| Math.Transposed | src/sarcos/math.cpp:13-23 | component j of new column i is component i of old column j, for all i and j; new column i is display row i of the argument |
| Math.TransposeKeepsDiagonal | test/math_test.cpp:98-106 | col[0].x, col[1].y and col[2].z are unchanged by the transpose |
| Math.TransposeInvolution | src/sarcos/math.cpp:13-23 | transposing twice gives back the original matrix |
| Math.TransposeMat | src/sarcos/math.cpp:13-23 | after the three in-place swaps, the storage holds the transpose of what it held before, and nothing else is written |
| Math.CopyMat | src/sarcos/math.cpp:25-35 | the copy is fresh storage, so later writes to it reach no other matrix; it holds exactly the argument's columns, field for field |
| Fixed.Decimal | src/sarcos/prettyprinter.cpp:51 | the integer digits are a non-empty run of decimal digits, with no leading zero, that denote the number |
| Fixed.RoundedIsNearest | src/sarcos/prettyprinter.cpp:51 | the printed count of last-place units is within half a unit of the value times 10^p, and even at a tie |
| Fixed.UnsignedRoundTrip | src/sarcos/prettyprinter.cpp:51 | the unsigned text starts with a digit and reads back as exactly the count it was written from |
| Fixed.Fmt | src/sarcos/prettyprinter.cpp:51 | the text written by `fixed` with `setprecision(p)`: a sign for negative values, then the unsigned text of the rounded count; FmtRoundTrip and FmtExamples state its properties |
| Fixed.UnsignedLength | src/sarcos/prettyprinter.cpp:51 | the unsigned text is at least one digit long, and at least p + 2 characters (a digit, the point and p fraction digits) when p > 0 |
| Fixed.WholeIsQuotient | src/sarcos/prettyprinter.cpp:51 | the integer part printed for n last-place units at precision p is n divided by 10^p |
| Fixed.UnsignedShape | src/sarcos/prettyprinter.cpp:51 | for p > 0 the unsigned text is the integer part without leading zeros, the point, then exactly p digits |
| Fixed.FmtRoundTrip | src/sarcos/prettyprinter.cpp:24-28 | the text of v reads back as the count of last-place units of v rounded to p places, with a minus sign on that count exactly when v is negative; the text is non-empty and starts with '-' exactly when v is negative, so a negative v that rounds to zero prints as "-0.000" and is one character wider than 0 |
| Fixed.FmtLength | src/sarcos/prettyprinter.cpp:47-53 | the exact length of the text of v: one for a minus sign, the digits of the integer part, and p + 1 more when p > 0 |
| Fixed.FmtExamples | test/prettyprinter_test.cpp:102-127 | 1.72 prints as "1.720" and -55.75 as "-55.750" at three places |
| Printer.Pad | src/sarcos/prettyprinter.cpp:26-28 | `setw(w)` right-justification: the result is max(w, length of the text) characters long |
| Laws.PadShape | src/sarcos/prettyprinter.cpp:26-28 | a padded field is blanks followed by the whole text |
| Laws.SpacesAreBlank | src/sarcos/prettyprinter.cpp:26-28 | the padding consists only of blanks |
| Laws.PadKeepsText | src/sarcos/prettyprinter.cpp:26-28 | padding never cuts: the whole text sits at the right end of the field, behind blanks only |
| Laws.StrSizeIsPrintedWidth | src/sarcos/prettyprinter.cpp:47-53 | computeStrSize is the length of exactly the text print writes for the value; the field is max(width, that size) long |
| Printer.StrSize | src/sarcos/prettyprinter.cpp:47-53 | computeStrSize is at least 1 character at precision 0 and at least p + 2 otherwise, plus one for a minus sign on negative values; StrSizeIsPrintedWidth ties it to the printed field |
| Printer.MaxSize | src/sarcos/prettyprinter.cpp:55-60 | computeMaxSize is at least each component's size and equals one of them |
| Printer.PrettyPrinter.constructor | src/sarcos/prettyprinter.cpp:10-13 | the default printer has width buffer 2, precision 3 and has printed nothing |
| Printer.PrettyPrinter.WithSettings | src/sarcos/prettyprinter.cpp:15-18 | the printer takes the given width buffer and precision and has printed nothing |
| Printer.RowText | src/sarcos/prettyprinter.cpp:22-30 | the line print(vec, width) writes; PadKeepsText and VecTextShape state its fields |
| Printer.PrettyPrinter.PrintVecWidths | src/sarcos/prettyprinter.cpp:22-30 | appends "[ ", the three fields right-justified to their widths, then " ]" and a line end |
| Printer.VecWidths | src/sarcos/prettyprinter.cpp:35-38 | column 0 gets its own size and columns 1 and 2 their size plus the buffer; VecTextShape states the resulting padding |
| Printer.VecText | src/sarcos/prettyprinter.cpp:32-45 | the text print(vec) writes; VecTextShape gives its closed form and ZeroVectorText an instance |
| Printer.PrettyPrinter.PrintVec | src/sarcos/prettyprinter.cpp:32-45 | appends the row at widths (own size, own size + buffer, own size + buffer), then one more line end |
| Laws.VecTextShape | src/sarcos/prettyprinter.cpp:32-45 | a standalone vector is "[ " x, buffer blanks, y, buffer blanks, z " ]\n\n"; column 0 gets no padding; the line's length |
| Laws.ZeroText | test/prettyprinter_test.cpp:83-95 | zero at precision 3 is "0.000" |
| Laws.ZeroVectorText | test/prettyprinter_test.cpp:83-95 | the zero vector with buffer 6 prints "[ 0.000      0.000      0.000 ]\n\n" |
| Laws.ZeroTextAtFive | test/prettyprinter_test.cpp:64-76 | zero at precision 5 is "0.00000" |
| Laws.ZeroVectorAtFive | test/prettyprinter_test.cpp:64-76 | the zero vector at precision 5 with the default buffer prints "[ 0.00000  0.00000  0.00000 ]\n\n" |
| Printer.MatWidths | src/sarcos/prettyprinter.cpp:65-68 | each column's width is its largest text size, plus the buffer for columns 1 and 2; FieldInColumn and MatrixFieldAligned state what it guarantees |
| Printer.MatText | src/sarcos/prettyprinter.cpp:62-86 | the text print(mat) writes, built from display rows; MatTextOfRows, MatrixFieldAligned and MatrixRowsEqualLength state its properties |
| Printer.PrettyPrinter.PrintMat | src/sarcos/prettyprinter.cpp:62-86 | appends the matrix text: widths from the stored columns, the three columns of a transposed private copy as rows, and a blank line; the argument is a value and cannot change |
| Printer.MatTextOfRows | src/sarcos/prettyprinter.cpp:71-80 | the columns of the transposed copy, printed at the shared widths and followed by a line end, are exactly the matrix text |
| Laws.FieldInColumn | src/sarcos/prettyprinter.cpp:55-68 | a component padded to its column's largest size plus extra is exactly that wide, and starts with at least `extra` blanks |
| Laws.MatrixFieldAligned | src/sarcos/prettyprinter.cpp:62-80 | the field in display row i, column j holds stored column j's component i; it is exactly as wide as column j's shared width, and in columns 1 and 2 it starts with at least the width buffer of blanks |
| Laws.MatrixRowsEqualLength | src/sarcos/prettyprinter.cpp:78-80 | all three display rows have the same length, 5 plus the three shared widths |
| Laws.ZeroTextAtTwo | test/prettyprinter_test.cpp:149-162 | zero at precision 2 is "0.00" |
| Laws.ZeroMatrixRow | test/prettyprinter_test.cpp:149-162 | a zero row at the widths (4, 6, 6) prints "[ 0.00  0.00  0.00 ]\n" |
| Laws.ZeroMatrixText | test/prettyprinter_test.cpp:149-162 | the zero matrix at precision 2 with the default buffer prints three rows "[ 0.00  0.00  0.00 ]\n" and a blank line |
| Printer.Separator | src/sarcos/prettyprinter.cpp:97-102 | the arrow block; SeparatorText gives it as a literal |
| Printer.PrettyPrinter.PrintArrow | src/sarcos/prettyprinter.cpp:97-102 | appends the arrow block: each marker right-justified to half the length of "Children" |
| Laws.SeparatorText | src/sarcos/prettyprinter.cpp:97-102 | the arrow block is exactly "   \|\nChildren\n   \|\n   V\n\n" |
| Printer.NodeText | src/sarcos/prettyprinter.cpp:88-106 | the text print(node) writes for a chain; LastNodeText, LinkNodeText and NodeTextJoined state its shape |
| Printer.LastNodeText | src/sarcos/prettyprinter.cpp:88-95 | a node without a child prints its header and matrix and nothing after them |
| Printer.LinkNodeText | src/sarcos/prettyprinter.cpp:88-105 | a node with a child prints its block, the arrow block, then the child's whole text |
| Printer.PrettyPrinter.PrintNode | src/sarcos/prettyprinter.cpp:88-106 | appends the text of the node and of all its descendants |
| Laws.NodeWithoutChildText | test/prettyprinter_test.cpp:244-261 | a childless node prints "Node data:\n" followed by exactly what print(mat) prints for its matrix |
| Laws.NodeTextJoined | src/sarcos/prettyprinter.cpp:88-106 | a chain of k nodes prints the k blocks in chain order with one arrow block between each two neighbours and none after the last, compared with a definition built from the end of the chain |
| Printer.InterleaveCons | src/sarcos/prettyprinter.cpp:95-105 | joining blocks from the end agrees with printing the first block, an arrow, then the rest |
| Laws.NumChildrenIgnored | src/sarcos/math.hpp:44-45 | the descendant count never changes what a chain prints |
| Printer.PrettyPrinter.SetPrecision | src/sarcos/prettyprinter.cpp:108-111 | sets the precision and changes nothing else |
| Printer.PrettyPrinter.SetWidthBuffer | src/sarcos/prettyprinter.cpp:113-116 | sets the width buffer and changes nothing else |

## Left out

- Formatting of binary doubles.
  - The C++ library rounds the binary `double` nearest to the written value.
  - `Fmt` rounds the exact real value instead, half to even.
  - Values whose binary approximation lies on the other side of a rounding boundary can therefore print differently.
- Special values: `-0.0`, NaN and infinities. They have no counterpart in `real`.
- Double widths.
  - `print(vec, width)` takes its widths in a `Vec3` of doubles, and `setw` receives them converted to `int`.
  - The model's `Widths` are integers from the start.
- Negative precision and negative width buffer. The fields and parameters are `nat`, since the code does not define what negative values do.
- Stream state.
  - The model does not keep `fixed`, `right` and `setprecision` set on `cout` after a call.
  - It does not model the flush done by `endl`, which is written as a plain line end.
  - It does not model the test harness capturing standard output.
- The null node and pointer lifetime.
  - `print(Node*)` is never called on a null pointer in the model.
  - Deleting nodes and the order of deletion are not modelled.
  - Cyclic chains cannot be built.
- `numChildren` is carried but never checked against the chain length, as in the code.
- The destructor (src/sarcos/prettyprinter.cpp:20) does nothing and is not modelled.
- `src/main.cpp` is a demonstration driver. It is not part of this model.
- Math.CopyMat returns fresh column storage instead of a `Mat33` by value. The storage is what the matrix printer transposes in place.
