/**
 * What the printer's output promises: fields never truncate, a standalone
 * vector is separated by exactly the width buffer, every row of a matrix
 * puts each column in the same character positions, and a chain of nodes
 * prints one block per node with one arrow between neighbours.
 */
module Laws {
  import opened Optional
  import opened Math
  import opened Fixed
  import opened Printer

  /** A padded text is its spaces followed by the whole text. */
  lemma PadShape(s: string, w: int)
    ensures Pad(s, w) == Spaces(|Pad(s, w)| - |s|) + s
  {
    if w <= |s| {
      assert Spaces(0) + s == s;
    }
  }

  /** Spaces(k) is k blanks. */
  lemma {:induction false} SpacesAreBlank(k: nat)
    ensures forall i :: 0 <= i < k ==> Spaces(k)[i] == ' '
  {
    if k > 0 {
      SpacesAreBlank(k - 1);
      assert Spaces(k) == [' '] + Spaces(k - 1);
    }
  }

  /** A field keeps its whole text at its right end, behind blanks only. */
  lemma PadKeepsText(s: string, w: int)
    ensures var r := Pad(s, w);
      |r| >= |s| && r[|r| - |s|..] == s && forall i :: 0 <= i < |r| - |s| ==> r[i] == ' '
  {
    var r := Pad(s, w);
    var sp := Spaces(|r| - |s|);
    PadShape(s, w);
    SpacesAreBlank(|r| - |s|);
    assert r == sp + s;
    assert forall i :: 0 <= i < |sp| ==> r[i] == sp[i];
  }

  /** The text print emits for v in a column of width w is Fmt's text, padded, never cut. */
  lemma StrSizeIsPrintedWidth(v: real, w: int, p: nat)
    ensures |Field(v, w, p)| == Max(w, StrSize(v, p))
    ensures Field(v, w, p) == Spaces(|Field(v, w, p)| - StrSize(v, p)) + Fmt(v, p)
  {
    PadShape(Fmt(v, p), w);
  }

  /** A row whose fields get their own length, plus k spaces for the last two. */
  lemma OwnWidthsRow(a: string, b: string, c: string, k: nat)
    ensures "[ " + Pad(a, |a|) + Pad(b, |b| + k) + Pad(c, |c| + k) + " ]\n" + "\n"
      == "[ " + a + Spaces(k) + b + Spaces(k) + c + " ]\n\n"
    ensures |"[ " + a + Spaces(k) + b + Spaces(k) + c + " ]\n\n"| == 6 + |a| + |b| + |c| + 2 * k
  {
    assert Pad(a, |a|) == a;
    assert Pad(b, |b| + k) == Spaces(k) + b;
    assert Pad(c, |c| + k) == Spaces(k) + c;
  }

  /**
   * print(vec) writes "[ ", the x text, the buffer's spaces, the y text,
   * the buffer's spaces, the z text and " ]" with two line ends; so a larger
   * buffer lengthens the line by two spaces per unit and leaves column 0 alone.
   */
  lemma VecTextShape(v: Vec3, buffer: nat, p: nat)
    ensures VecText(v, buffer, p) ==
      "[ " + Fmt(v.x, p) + Spaces(buffer) + Fmt(v.y, p) + Spaces(buffer) + Fmt(v.z, p) + " ]\n\n"
    ensures |VecText(v, buffer, p)| == 6 + StrSize(v.x, p) + StrSize(v.y, p) + StrSize(v.z, p) + 2 * buffer
  {
    var fx, fy, fz := Fmt(v.x, p), Fmt(v.y, p), Fmt(v.z, p);
    var w := VecWidths(v, buffer, p);
    assert w.x == |fx| && w.y == |fy| + buffer && w.z == |fz| + buffer;
    assert RowText(v, w, p) == "[ " + Pad(fx, |fx|) + Pad(fy, |fy| + buffer) + Pad(fz, |fz| + buffer) + " ]\n";
    OwnWidthsRow(fx, fy, fz, buffer);
  }

  /** Zero at the default precision of three places. */
  lemma ZeroText()
    ensures Fmt(0.0, 3) == "0.000"
  {
    assert Rounded(0.0, 3) == 0;
    assert Unsigned(0, 1) == "0.0";
    assert Unsigned(0, 2) == "0.0" + "0";
    assert Unsigned(0, 3) == "0.00" + "0";
    assert Fmt(0.0, 3) == "" + "0.000";
  }

  lemma ZeroRowLiteral(z: string, sp: string)
    requires z == "0.000" && sp == "      "
    ensures "[ " + z + sp + z + sp + z + " ]\n\n" == "[ 0.000      0.000      0.000 ]\n\n"
  {
    assert "[ " + z == "[ 0.000";
    assert "[ 0.000" + sp == "[ 0.000      ";
    assert "[ 0.000      " + z == "[ 0.000      0.000";
    assert "[ 0.000      0.000" + sp == "[ 0.000      0.000      ";
    assert "[ 0.000      0.000      " + z == "[ 0.000      0.000      0.000";
    assert "[ 0.000      0.000      0.000" + " ]\n\n" == "[ 0.000      0.000      0.000 ]\n\n";
  }

  /** The zero vector with a buffer of six, as a standalone print shows it. */
  lemma ZeroVectorText()
    ensures VecText(Zero, 6, 3) == "[ 0.000      0.000      0.000 ]\n\n"
  {
    ZeroText();
    assert Spaces(6) == "      " by {
      assert Spaces(1) == [' '] + Spaces(0);
      assert Spaces(2) == [' '] + Spaces(1);
      assert Spaces(3) == [' '] + Spaces(2);
      assert Spaces(4) == [' '] + Spaces(3);
      assert Spaces(5) == [' '] + Spaces(4);
      assert Spaces(6) == [' '] + Spaces(5);
    }
    VecTextShape(Zero, 6, 3);
    ZeroRowLiteral(Fmt(0.0, 3), Spaces(6));
  }

  /** Zero at five places. */
  lemma ZeroTextAtFive()
    ensures Fmt(0.0, 5) == "0.00000"
  {
    assert Rounded(0.0, 5) == 0;
    assert Unsigned(0, 1) == "0.0";
    assert Unsigned(0, 2) == "0.0" + "0";
    assert Unsigned(0, 3) == "0.00" + "0";
    assert Unsigned(0, 4) == "0.000" + "0";
    assert Unsigned(0, 5) == "0.0000" + "0";
    assert Fmt(0.0, 5) == "" + "0.00000";
  }

  lemma ZeroRowAtFive(z: string, sp: string)
    requires z == "0.00000" && sp == "  "
    ensures "[ " + z + sp + z + sp + z + " ]\n\n" == "[ 0.00000  0.00000  0.00000 ]\n\n"
  {
    assert "[ " + z == "[ 0.00000";
    assert "[ 0.00000" + sp == "[ 0.00000  ";
    assert "[ 0.00000  " + z == "[ 0.00000  0.00000";
    assert "[ 0.00000  0.00000" + sp == "[ 0.00000  0.00000  ";
    assert "[ 0.00000  0.00000  " + z == "[ 0.00000  0.00000  0.00000";
    assert "[ 0.00000  0.00000  0.00000" + " ]\n\n" == "[ 0.00000  0.00000  0.00000 ]\n\n";
  }

  /** The zero vector at five places with the default buffer of two. */
  lemma ZeroVectorAtFive()
    ensures VecText(Zero, 2, 5) == "[ 0.00000  0.00000  0.00000 ]\n\n"
  {
    ZeroTextAtFive();
    assert Spaces(2) == "  " by {
      assert Spaces(1) == [' '] + Spaces(0);
      assert Spaces(2) == [' '] + Spaces(1);
    }
    VecTextShape(Zero, 2, 5);
    ZeroRowAtFive(Fmt(0.0, 5), Spaces(2));
  }

  /** Zero at two places. */
  lemma ZeroTextAtTwo()
    ensures Fmt(0.0, 2) == "0.00"
  {
    assert Rounded(0.0, 2) == 0;
    assert Unsigned(0, 1) == "0.0";
    assert Unsigned(0, 2) == "0.0" + "0";
    assert Fmt(0.0, 2) == "" + "0.00";
  }

  /** One display row of the zero matrix at two places with the default buffer. */
  lemma ZeroMatrixRow()
    ensures RowText(Zero, Widths(4, 6, 6), 2) == "[ 0.00  0.00  0.00 ]\n"
  {
    ZeroTextAtTwo();
    var z := Fmt(0.0, 2);
    assert Spaces(2) == "  " by {
      assert Spaces(1) == [' '] + Spaces(0);
      assert Spaces(2) == [' '] + Spaces(1);
    }
    assert Field(0.0, 4, 2) == z;
    assert Field(0.0, 6, 2) == Spaces(2) + z;
    var f := Spaces(2) + z;
    assert f == "  0.00";
    assert "[ " + z == "[ 0.00";
    assert "[ 0.00" + f == "[ 0.00  0.00";
    assert "[ 0.00  0.00" + f == "[ 0.00  0.00  0.00";
    assert "[ 0.00  0.00  0.00" + " ]\n" == "[ 0.00  0.00  0.00 ]\n";
  }

  /** The zero matrix at two places with the default buffer of two. */
  lemma ZeroMatrixText()
    ensures MatText([Zero, Zero, Zero], 2, 2) ==
      "[ 0.00  0.00  0.00 ]\n[ 0.00  0.00  0.00 ]\n[ 0.00  0.00  0.00 ]\n\n"
  {
    var m: Mat33 := [Zero, Zero, Zero];
    ZeroTextAtTwo();
    assert MaxSize(Zero, 2) == 4;
    assert MatWidths(m, 2, 2) == Widths(4, 6, 6);
    assert Row(m, 0) == Zero && Row(m, 1) == Zero && Row(m, 2) == Zero;
    ZeroMatrixRow();
    var r := RowText(Zero, Widths(4, 6, 6), 2);
    assert MatText(m, 2, 2) == r + r + r + "\n";
    ZeroMatrixLiteral(r);
  }

  lemma ZeroMatrixLiteral(r: string)
    requires r == "[ 0.00  0.00  0.00 ]\n"
    ensures r + r + r + "\n" == "[ 0.00  0.00  0.00 ]\n[ 0.00  0.00  0.00 ]\n[ 0.00  0.00  0.00 ]\n\n"
  {
    assert r + r == "[ 0.00  0.00  0.00 ]\n[ 0.00  0.00  0.00 ]\n";
    assert r + r + r == "[ 0.00  0.00  0.00 ]\n[ 0.00  0.00  0.00 ]\n[ 0.00  0.00  0.00 ]\n";
  }

  /** Column component i padded to the column's largest size plus extra: exactly that wide. */
  lemma FieldInColumn(col: Vec3, i: nat, extra: nat, p: nat)
    requires i < 3
    ensures var v, width := col.At(i), MaxSize(col, p) + extra;
      |Field(v, width, p)| == width &&
      Field(v, width, p) == Spaces(width - StrSize(v, p)) + Fmt(v, p) &&
      width - StrSize(v, p) >= extra
  {
    var v, width := col.At(i), MaxSize(col, p) + extra;
    assert StrSize(v, p) <= MaxSize(col, p);
    PadShape(Fmt(v, p), width);
  }

  /**
   * In print(mat) the field of display row i, column j holds stored column
   * j's component i and is exactly as wide as column j's shared width; in
   * columns 1 and 2 it starts with at least the width buffer of spaces.
   */
  lemma MatrixFieldAligned(m: Mat33, buffer: nat, p: nat, i: nat, j: nat)
    requires i < 3 && j < 3
    ensures Row(m, i).At(j) == m[j].At(i)
    ensures var w := MatWidths(m, buffer, p);
      |Field(m[j].At(i), w.At(j), p)| == w.At(j) &&
      Field(m[j].At(i), w.At(j), p) == Spaces(w.At(j) - StrSize(m[j].At(i), p)) + Fmt(m[j].At(i), p) &&
      (j > 0 ==> w.At(j) - StrSize(m[j].At(i), p) >= buffer)
  {
    var extra := if j == 0 then 0 else buffer;
    assert MatWidths(m, buffer, p).At(j) == MaxSize(m[j], p) + extra;
    FieldInColumn(m[j], i, extra, p);
  }

  /** All three rows of print(mat) have one length, fixed by the shared widths. */
  lemma MatrixRowsEqualLength(m: Mat33, buffer: nat, p: nat, i: nat)
    requires i < 3
    ensures var w := MatWidths(m, buffer, p);
      |RowText(Row(m, i), w, p)| == 5 + w.x + w.y + w.z
  {
    MatrixFieldAligned(m, buffer, p, i, 0);
    MatrixFieldAligned(m, buffer, p, i, 1);
    MatrixFieldAligned(m, buffer, p, i, 2);
  }

  /** The arrow between a node and its child: each marker at column 4, half of "Children". */
  lemma SeparatorText()
    ensures Separator() == "   |\nChildren\n   |\n   V\n\n"
  {
    assert Spaces(3) == "   " by {
      assert Spaces(1) == [' '] + Spaces(0);
      assert Spaces(2) == [' '] + Spaces(1);
      assert Spaces(3) == [' '] + Spaces(2);
    }
    assert |Label| / 2 == 4;
    var bar, arrow := Pad("|", 4), Pad("V", 4);
    assert bar == "   |" && arrow == "   V";
    assert Separator() == bar + "\n" + Label + "\n" + bar + "\n" + arrow + "\n" + "\n";
    assert "   |" + "\n" == "   |\n";
    assert "   |\n" + "Children" == "   |\nChildren";
    assert "   |\nChildren" + "\n" == "   |\nChildren\n";
    assert "   |\nChildren\n" + "   |" == "   |\nChildren\n   |";
    assert "   |\nChildren\n   |" + "\n" == "   |\nChildren\n   |\n";
    assert "   |\nChildren\n   |\n" + "   V" == "   |\nChildren\n   |\n   V";
    assert "   |\nChildren\n   |\n   V" + "\n" == "   |\nChildren\n   |\n   V\n";
    assert "   |\nChildren\n   |\n   V\n" + "\n" == "   |\nChildren\n   |\n   V\n\n";
  }

  /** A node without a child prints its header and its matrix and nothing else. */
  lemma NodeWithoutChildText(n: Node, buffer: nat, p: nat)
    requires n.children == None
    ensures NodeText(n, buffer, p) == "Node data:\n" + MatText(n.data, buffer, p)
  {
    LastNodeText(n, buffer, p);
  }

  /** The descendant count never affects what a chain prints. */
  lemma {:induction false} NumChildrenIgnored(n: Node, k: uint32, buffer: nat, p: nat)
    ensures NodeText(n.(numChildren := k), buffer, p) == NodeText(n, buffer, p)
  {
  }

  /**
   * A chain of k nodes prints the k blocks in chain order with an arrow
   * between each two neighbours and none after the last: k blocks, k - 1 arrows.
   */
  lemma {:induction false} NodeTextJoined(n: Node, buffer: nat, p: nat)
    ensures NodeText(n, buffer, p) == Interleave(Blocks(Chain(n), buffer, p), Separator())
  {
    var blk := Block(n.data, buffer, p);
    match n.children
    case None =>
      LastNodeText(n, buffer, p);
      assert Chain(n) == [n.data];
      assert Blocks([n.data], buffer, p) == [blk];
    case Some(c) =>
      NodeTextJoined(c, buffer, p);
      assert Chain(n) == [n.data] + Chain(c);
      BlocksCons(n.data, Chain(c), buffer, p);
      InterleaveCons(blk, Blocks(Chain(c), buffer, p), Separator());
      LinkNodeText(n, c, buffer, p);
  }
}
