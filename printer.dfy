/**
 * The column-alignment engine: text widths of formatted numbers,
 * right-justified fields, vector rows, matrices printed through a
 * transposed copy, and the node chain printed recursively. The text each
 * print appends is defined by the functions of this module; the
 * PrettyPrinter class appends it to its output.
 */
module Printer {
  import opened Optional
  import opened Math
  import opened Fixed

  /** A width for each of the three columns of a printed row. */
  datatype Widths = Widths(x: int, y: int, z: int) {

    function At(j: nat): int
      requires j < 3
    {
      if j == 0 then x else if j == 1 then y else z
    }
  }

  function Max(a: int, b: int): int
  {
    if a < b then b else a
  }

  function Spaces(k: nat): (s: string)
    ensures |s| == k
  {
    if k == 0 then [] else [' '] + Spaces(k - 1)
  }

  /**
   * What `std::right << setw(w) << s` writes: s behind enough spaces to make
   * w characters, and s whole when it is already w or longer.
   */
  function Pad(s: string, w: int): (r: string)
    ensures |r| == Max(w, |s|)
  {
    if w > |s| then Spaces(w - |s|) + s else s
  }

  /** computeStrSize: the length of the text of v at precision p. */
  function StrSize(v: real, p: nat): (n: nat)
    ensures n >= (if p == 0 then 1 else p + 2) + (if v < 0.0 then 1 else 0)
  {
    UnsignedLength(Rounded(Abs(v), p), p);
    |Fmt(v, p)|
  }

  /** computeMaxSize: the largest text length among the three components. */
  function MaxSize(v: Vec3, p: nat): (n: nat)
    ensures n >= StrSize(v.x, p) && n >= StrSize(v.y, p) && n >= StrSize(v.z, p)
    ensures n == StrSize(v.x, p) || n == StrSize(v.y, p) || n == StrSize(v.z, p)
  {
    var maxWidth := Max(StrSize(v.x, p), StrSize(v.y, p));
    Max(maxWidth, StrSize(v.z, p))
  }

  /** The field print(vec, width) writes for v in a column of width w. */
  function Field(v: real, w: int, p: nat): string
  {
    Pad(Fmt(v, p), w)
  }

  /** The line print(vec, width) writes. */
  function RowText(v: Vec3, w: Widths, p: nat): string
  {
    "[ " + Field(v.x, w.x, p) + Field(v.y, w.y, p) + Field(v.z, w.z, p) + " ]\n"
  }

  /** The widths print(vec) chooses: the own text size, plus the buffer for columns 1 and 2. */
  function VecWidths(v: Vec3, buffer: nat, p: nat): Widths
  {
    Widths(StrSize(v.x, p), StrSize(v.y, p) + buffer, StrSize(v.z, p) + buffer)
  }

  /** The text print(vec) writes: the row at its own widths and a blank line. */
  function VecText(v: Vec3, buffer: nat, p: nat): string
  {
    RowText(v, VecWidths(v, buffer, p), p) + "\n"
  }

  /** The widths print(mat) shares among its rows: each stored column's largest text size. */
  function MatWidths(m: Mat33, buffer: nat, p: nat): Widths
  {
    Widths(MaxSize(m[0], p), MaxSize(m[1], p) + buffer, MaxSize(m[2], p) + buffer)
  }

  /** The text print(mat) writes: the three display rows at one width triple and a blank line. */
  function MatText(m: Mat33, buffer: nat, p: nat): string
  {
    var w := MatWidths(m, buffer, p);
    RowText(Row(m, 0), w, p) + RowText(Row(m, 1), w, p) + RowText(Row(m, 2), w, p) + "\n"
  }

  /** The line print(node) writes before a node's matrix. */
  const Header := "Node data:\n"

  const Label := "Children"

  /** The arrow print(node) writes between a node and its child. */
  function Separator(): string
  {
    var half := |Label| / 2;
    Pad("|", half) + "\n" + Label + "\n" + Pad("|", half) + "\n" + Pad("V", half) + "\n" + "\n"
  }

  /** The block of one node: its header line and its matrix. */
  function Block(m: Mat33, buffer: nat, p: nat): string
  {
    Header + MatText(m, buffer, p)
  }

  /** The text print(node) writes for a node and all its descendants. */
  function NodeText(n: Node, buffer: nat, p: nat): string
  {
    Block(n.data, buffer, p) +
    match n.children
    case None => ""
    case Some(c) => Separator() + NodeText(c, buffer, p)
  }

  /** The matrices along the chain, from the given node to the last one. */
  function Chain(n: Node): (ms: seq<Mat33>)
    ensures |ms| >= 1 && ms[0] == n.data
  {
    match n.children
    case None => [n.data]
    case Some(c) => [n.data] + Chain(c)
  }

  /** The block of each matrix, in order. */
  function Blocks(ms: seq<Mat33>, buffer: nat, p: nat): (bs: seq<string>)
    ensures |bs| == |ms|
  {
    if ms == [] then [] else [Block(ms[0], buffer, p)] + Blocks(ms[1..], buffer, p)
  }

  /**
   * Texts built from the end: every one of them, with sep between each two
   * neighbours and none after the last.
   */
  function Interleave(bs: seq<string>, sep: string): string
    requires |bs| >= 1
  {
    if |bs| == 1 then bs[0] else Interleave(bs[..|bs| - 1], sep) + sep + bs[|bs| - 1]
  }

  lemma BlocksCons(m: Mat33, ms: seq<Mat33>, buffer: nat, p: nat)
    ensures Blocks([m] + ms, buffer, p) == [Block(m, buffer, p)] + Blocks(ms, buffer, p)
  {
    assert ([m] + ms)[1..] == ms;
  }

  lemma {:induction false} InterleaveCons(b: string, bs: seq<string>, sep: string)
    requires |bs| >= 1
    ensures Interleave([b] + bs, sep) == b + sep + Interleave(bs, sep)
    decreases |bs|
  {
    var xs := [b] + bs;
    if |bs| == 1 {
      assert xs[..|xs| - 1] == [b];
    } else {
      var init := bs[..|bs| - 1];
      assert xs[..|xs| - 1] == [b] + init;
      assert xs[|xs| - 1] == bs[|bs| - 1];
      InterleaveCons(b, init, sep);
      assert b + sep + Interleave(init, sep) + sep + bs[|bs| - 1] == b + sep + (Interleave(init, sep) + sep + bs[|bs| - 1]);
    }
  }

  /** The rows print(mat) writes one by one make up the matrix text. */
  lemma MatTextOfRows(o: string, m: Mat33, buffer: nat, p: nat, w: Widths, t: seq<Vec3>)
    requires w == MatWidths(m, buffer, p)
    requires t == Transposed(m)
    ensures o + RowText(t[0], w, p) + RowText(t[1], w, p) + RowText(t[2], w, p) + "\n" == o + MatText(m, buffer, p)
  {
    assert t[0] == Row(m, 0) && t[1] == Row(m, 1) && t[2] == Row(m, 2);
    var a, b, c := RowText(t[0], w, p), RowText(t[1], w, p), RowText(t[2], w, p);
    Regroup(o, a, b);
    Regroup(o, a + b, c);
    Regroup(o, a + b + c, "\n");
  }

  /** A node without a child prints its block and nothing after it. */
  lemma LastNodeText(n: Node, buffer: nat, p: nat)
    requires n.children == None
    ensures NodeText(n, buffer, p) == Block(n.data, buffer, p)
  {
    var blk := Block(n.data, buffer, p);
    assert NodeText(n, buffer, p) == blk + "";
    assert blk + "" == blk;
  }

  /** A node with a child prints its block, the arrow, then the child's text. */
  lemma LinkNodeText(n: Node, child: Node, buffer: nat, p: nat)
    requires n.children == Some(child)
    ensures NodeText(n, buffer, p) == Block(n.data, buffer, p) + Separator() + NodeText(child, buffer, p)
  {
    var blk, rest := Block(n.data, buffer, p), NodeText(child, buffer, p);
    assert NodeText(n, buffer, p) == blk + (Separator() + rest);
    assert blk + (Separator() + rest) == blk + Separator() + rest;
  }

  /** What print(node) appends for a node without a child, as the pieces it writes. */
  lemma LastNodeStep(o: string, n: Node, buffer: nat, p: nat)
    requires n.children == None
    ensures o + Header + MatText(n.data, buffer, p) == o + NodeText(n, buffer, p)
  {
    assert o + Header + MatText(n.data, buffer, p) == o + (Header + MatText(n.data, buffer, p));
    LastNodeText(n, buffer, p);
  }

  /** What print(node) appends for a node with a child, as the pieces it writes. */
  lemma LinkNodeStep(o: string, n: Node, child: Node, buffer: nat, p: nat)
    requires n.children == Some(child)
    ensures o + Header + MatText(n.data, buffer, p) + Separator() + NodeText(child, buffer, p)
      == o + NodeText(n, buffer, p)
  {
    var blk, rest := Block(n.data, buffer, p), NodeText(child, buffer, p);
    Regroup(o, Header, MatText(n.data, buffer, p));
    LinkNodeText(n, child, buffer, p);
    Regroup(o, blk, Separator());
    Regroup(o, blk + Separator(), rest);
  }

  /**
   * Regrouping appended pieces. Stated over plain strings so that the
   * printed texts it is used on are not unfolded.
   */
  lemma Regroup(o: string, a: string, b: string)
    ensures o + a + b == o + (a + b)
  {
  }

  lemma SeparatorPieces(o: string, bar: string, arrow: string)
    requires bar == Pad("|", |Label| / 2) && arrow == Pad("V", |Label| / 2)
    ensures o + bar + "\n" + "Children\n" + bar + "\n" + arrow + "\n\n" == o + Separator()
  {
  }

  class PrettyPrinter {
    /** Spaces added before the second and third columns. */
    var widthBuffer: nat
    /** Digits after the decimal point. */
    var precision: nat
    /** Everything printed so far. */
    var out: string

    constructor ()
      ensures widthBuffer == 2 && precision == 3 && out == []
    {
      widthBuffer := 2;
      precision := 3;
      out := [];
    }

    constructor WithSettings(widthBuffer: nat, precision: nat)
      ensures this.widthBuffer == widthBuffer && this.precision == precision && out == []
    {
      this.widthBuffer := widthBuffer;
      this.precision := precision;
      out := [];
    }

    /** print(vec, width): one row, each component right-justified into its width. */
    method PrintVecWidths(vec: Vec3, width: Widths)
      modifies this`out
      ensures out == old(out) + RowText(vec, width, precision)
    {
      var fx, fy, fz := Field(vec.x, width.x, precision), Field(vec.y, width.y, precision), Field(vec.z, width.z, precision);
      out := out + "[ ";
      out := out + fx;
      out := out + fy;
      out := out + fz;
      out := out + " ]\n";
      assert out == old(out) + ("[ " + fx + fy + fz + " ]\n");
    }

    /** print(vec): the row at its own widths, then an extra line end. */
    method PrintVec(vec: Vec3)
      modifies this`out
      ensures out == old(out) + VecText(vec, widthBuffer, precision)
    {
      var width := Widths(StrSize(vec.x, precision),
                          StrSize(vec.y, precision) + widthBuffer,
                          StrSize(vec.z, precision) + widthBuffer);
      assert width == VecWidths(vec, widthBuffer, precision);
      PrintVecWidths(vec, width);
      out := out + "\n";
      assert out == old(out) + (RowText(vec, width, precision) + "\n");
    }

    /**
     * print(mat): widths from the stored columns, then the three columns of
     * a transposed private copy as rows, then an extra line end. The
     * argument is a value, so nothing the caller holds can change.
     */
    method PrintMat(mat: Mat33)
      modifies this`out
      ensures out == old(out) + MatText(mat, widthBuffer, precision)
    {
      var width := Widths(MaxSize(mat[0], precision),
                          MaxSize(mat[1], precision) + widthBuffer,
                          MaxSize(mat[2], precision) + widthBuffer);
      assert width == MatWidths(mat, widthBuffer, precision);
      var matCopy := CopyMat(mat);
      TransposeMat(matCopy);
      ghost var t := matCopy[..];
      assert t == Transposed(mat);
      var r0, r1, r2 := matCopy[0], matCopy[1], matCopy[2];
      assert r0 == t[0] && r1 == t[1] && r2 == t[2];
      PrintVecWidths(r0, width);
      PrintVecWidths(r1, width);
      PrintVecWidths(r2, width);
      out := out + "\n";
      MatTextOfRows(old(out), mat, widthBuffer, precision, width, t);
    }

    /** print(node): the node's block, and the arrow and the child's text when there is a child. */
    method PrintNode(node: Node)
      modifies this`out
      ensures out == old(out) + NodeText(node, widthBuffer, precision)
      decreases node
    {
      ghost var o, b, p := out, widthBuffer, precision;
      out := out + Header;
      PrintMat(node.data);
      assert out == o + Header + MatText(node.data, b, p);
      match node.children
      case None =>
        LastNodeStep(o, node, b, p);
      case Some(child) =>
        PrintArrow();
        PrintNode(child);
        assert out == o + Header + MatText(node.data, b, p) + Separator() + NodeText(child, b, p);
        LinkNodeStep(o, node, child, b, p);
    }

    /** The arrow print(node) writes before a child: each marker right-justified to half the label. */
    method PrintArrow()
      modifies this`out
      ensures out == old(out) + Separator()
    {
      var children := Label;
      var bar, arrow := Pad("|", |children| / 2), Pad("V", |children| / 2);
      out := out + bar + "\n";
      out := out + "Children\n";
      out := out + bar + "\n";
      out := out + arrow + "\n\n";
      SeparatorPieces(old(out), bar, arrow);
    }

    method SetPrecision(precision: nat)
      modifies this`precision
      ensures this.precision == precision
    {
      this.precision := precision;
    }

    method SetWidthBuffer(widthBuffer: nat)
      modifies this`widthBuffer
      ensures this.widthBuffer == widthBuffer
    {
      this.widthBuffer := widthBuffer;
    }
  }
}
