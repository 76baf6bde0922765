/**
 * Three-component vectors, column-major 3x3 matrices and the node chain,
 * with the three math primitives of the library: dot product, in-place
 * transpose and deep copy. Scalars are exact reals, so the algebraic laws
 * below hold exactly.
 */
module Math {
  import opened Optional

  /** A 3D vector [x, y, z]. */
  datatype Vec3 = Vec3(x: real, y: real, z: real) {

    /** Component number i (0 is x, 1 is y, 2 is z). */
    function At(i: nat): real
      requires i < 3
    {
      if i == 0 then x else if i == 1 then y else z
    }
  }

  const Zero := Vec3(0.0, 0.0, 0.0)

  /** A 3x3 matrix as the value of its three columns (column-major). */
  type Mat33 = c: seq<Vec3> | |c| == 3 witness [Zero, Zero, Zero]

  /** The unsigned 32-bit count held by a node. */
  newtype uint32 = n: int | 0 <= n < 0x1_0000_0000

  /**
   * A node of the chain: its matrix data, the child it points to (None for a
   * null pointer) and a descendant count that nothing checks or reads.
   */
  datatype Node = Node(data: Mat33, children: Option<Node>, numChildren: uint32)

  function DotProduct(a: Vec3, b: Vec3): real
  {
    (a.x * b.x) + (a.y * b.y) + (a.z * b.z)
  }

  /** The dot product as the sum over the component indices below k. */
  function PartialDot(a: Vec3, b: Vec3, k: nat): real
    requires k <= 3
  {
    if k == 0 then 0.0 else PartialDot(a, b, k - 1) + a.At(k - 1) * b.At(k - 1)
  }

  lemma DotProductIsSumOfProducts(a: Vec3, b: Vec3)
    ensures DotProduct(a, b) == PartialDot(a, b, 3)
  {
    assert PartialDot(a, b, 1) == a.x * b.x;
    assert PartialDot(a, b, 2) == a.x * b.x + a.y * b.y;
  }

  lemma DotProductCommutes(a: Vec3, b: Vec3)
    ensures DotProduct(a, b) == DotProduct(b, a)
  {
  }

  /** Linear in the first argument; with DotProductCommutes, in the second too. */
  lemma DotProductLinear(a: Vec3, b: Vec3, c: Vec3, k: real)
    ensures DotProduct(Vec3(a.x + b.x, a.y + b.y, a.z + b.z), c) == DotProduct(a, c) + DotProduct(b, c)
    ensures DotProduct(Vec3(k * a.x, k * a.y, k * a.z), c) == k * DotProduct(a, c)
  {
  }

  lemma DotProductWithZero(a: Vec3)
    ensures DotProduct(Zero, a) == 0.0 && DotProduct(a, Zero) == 0.0
  {
  }

  lemma DotProductSelfNonNegative(a: Vec3)
    ensures DotProduct(a, a) >= 0.0
  {
  }

  lemma DotProductExamples()
    ensures DotProduct(Zero, Zero) == 0.0
    ensures DotProduct(Vec3(1.0, 2.0, 3.0), Vec3(4.0, 5.0, 6.0)) == 32.0
    ensures DotProduct(Vec3(1.0, 2.0, 3.0), Vec3(-4.0, -5.0, 6.0)) == 4.0
  {
    assert DotProduct(Vec3(1.0, 2.0, 3.0), Vec3(4.0, 5.0, 6.0)) == 4.0 + 10.0 + 18.0;
    assert DotProduct(Vec3(1.0, 2.0, 3.0), Vec3(-4.0, -5.0, 6.0)) == -4.0 - 10.0 + 18.0;
  }

  /** Display row i: the i-th component of every column, left to right. */
  function Row(m: Mat33, i: nat): Vec3
    requires i < 3
  {
    Vec3(m[0].At(i), m[1].At(i), m[2].At(i))
  }

  /**
   * The transpose: what the three swaps y1<->x2, z1<->x3, z2<->y3 leave in
   * the columns. Column i of the result is display row i of the argument.
   */
  function Transposed(m: Mat33): (t: Mat33)
    ensures forall i, j :: 0 <= i < 3 && 0 <= j < 3 ==> t[i].At(j) == m[j].At(i)
    ensures forall i :: 0 <= i < 3 ==> t[i] == Row(m, i)
  {
    [m[0].(y := m[1].x, z := m[2].x),
     m[1].(x := m[0].y, z := m[2].y),
     m[2].(x := m[0].z, y := m[1].z)]
  }

  lemma TransposeKeepsDiagonal(m: Mat33)
    ensures Transposed(m)[0].x == m[0].x
    ensures Transposed(m)[1].y == m[1].y
    ensures Transposed(m)[2].z == m[2].z
  {
  }

  lemma {:induction false} TransposeInvolution(m: Mat33)
    ensures Transposed(Transposed(m)) == m
  {
    var t := Transposed(Transposed(m));
    forall i | 0 <= i < 3
      ensures t[i] == m[i]
    {
      assert t[i].At(0) == m[i].At(0) && t[i].At(1) == m[i].At(1) && t[i].At(2) == m[i].At(2);
    }
  }

  /** transposeMat: transposes the three columns in place with three swaps. */
  method TransposeMat(mat: array<Vec3>)
    requires mat.Length == 3
    modifies mat
    ensures mat[..] == Transposed(old(mat[..]))
  {
    // column 0's y trades places with column 1's x
    mat[0], mat[1] := mat[0].(y := mat[1].x), mat[1].(x := mat[0].y);
    // column 0's z trades places with column 2's x
    mat[0], mat[2] := mat[0].(z := mat[2].x), mat[2].(x := mat[0].z);
    // column 1's z trades places with column 2's y
    mat[1], mat[2] := mat[1].(z := mat[2].y), mat[2].(y := mat[1].z);
  }

  /**
   * copyMat: fills fresh column storage field by field from the argument.
   * The storage is fresh, so no later write to it reaches any other matrix.
   */
  method CopyMat(mat: Mat33) returns (matCopy: array<Vec3>)
    ensures fresh(matCopy) && matCopy.Length == 3
    ensures matCopy[..] == mat
  {
    matCopy := new Vec3[3];
    for c := 0 to 3
      invariant forall k :: 0 <= k < c ==> matCopy[k] == mat[k]
    {
      matCopy[c] := matCopy[c].(x := mat[c].x);
      matCopy[c] := matCopy[c].(y := mat[c].y);
      matCopy[c] := matCopy[c].(z := mat[c].z);
    }
  }
}
