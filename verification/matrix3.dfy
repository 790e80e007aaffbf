/** Exact 3-vectors and 3x3 matrices over `real`, with the closed-form
    (adjugate over determinant) inverse that stands in for `np.linalg.inv`. */
module Matrix3 {
  import opened Results

  /** A colour triple; component 0, 1, 2 is red, green, blue. */
  datatype Vec3 = Vec3(v0: real, v1: real, v2: real) {
    function At(i: nat): real
      requires i < 3
    {
      if i == 0 then v0 else if i == 1 then v1 else v2
    }
  }

  /** A 3x3 matrix stored by rows. */
  datatype Mat3 = Mat3(r0: Vec3, r1: Vec3, r2: Vec3) {
    function Row(i: nat): Vec3
      requires i < 3
    {
      if i == 0 then r0 else if i == 1 then r1 else r2
    }

    function At(i: nat, j: nat): real
      requires i < 3 && j < 3
    {
      Row(i).At(j)
    }
  }

  function Identity(): Mat3 {
    Mat3(Vec3(1.0, 0.0, 0.0), Vec3(0.0, 1.0, 0.0), Vec3(0.0, 0.0, 1.0))
  }

  /** Unit vector e_k. */
  function Unit(k: nat): Vec3
    requires k < 3
  {
    Identity().Row(k)
  }

  function Dot(a: Vec3, b: Vec3): real {
    a.v0 * b.v0 + a.v1 * b.v1 + a.v2 * b.v2
  }

  function Cross(a: Vec3, b: Vec3): Vec3 {
    Vec3(a.v1 * b.v2 - a.v2 * b.v1, a.v2 * b.v0 - a.v0 * b.v2, a.v0 * b.v1 - a.v1 * b.v0)
  }

  function Add(a: Vec3, b: Vec3): Vec3 {
    Vec3(a.v0 + b.v0, a.v1 + b.v1, a.v2 + b.v2)
  }

  function Zero(): Vec3 {
    Vec3(0.0, 0.0, 0.0)
  }

  function ScaleVec(s: real, v: Vec3): Vec3 {
    Vec3(s * v.v0, s * v.v1, s * v.v2)
  }

  function Col(m: Mat3, k: nat): Vec3
    requires k < 3
  {
    if k == 0 then Vec3(m.r0.v0, m.r1.v0, m.r2.v0)
    else if k == 1 then Vec3(m.r0.v1, m.r1.v1, m.r2.v1)
    else Vec3(m.r0.v2, m.r1.v2, m.r2.v2)
  }

  function Transpose(m: Mat3): Mat3 {
    Mat3(Col(m, 0), Col(m, 1), Col(m, 2))
  }

  /** Matrix-vector product: (m*v)[i] is the sum over k of m[i][k]*v[k]. */
  function MulVec(m: Mat3, v: Vec3): Vec3 {
    Vec3(Dot(m.r0, v), Dot(m.r1, v), Dot(m.r2, v))
  }

  /** Matrix product: (a*b)[i][j] is the sum over k of a[i][k]*b[k][j]. */
  function Mul(a: Mat3, b: Mat3): Mat3 {
    var c0, c1, c2 := Col(b, 0), Col(b, 1), Col(b, 2);
    Mat3(Vec3(Dot(a.r0, c0), Dot(a.r0, c1), Dot(a.r0, c2)),
         Vec3(Dot(a.r1, c0), Dot(a.r1, c1), Dot(a.r1, c2)),
         Vec3(Dot(a.r2, c0), Dot(a.r2, c1), Dot(a.r2, c2)))
  }

  function ScaleMat(s: real, m: Mat3): Mat3 {
    Mat3(ScaleVec(s, m.r0), ScaleVec(s, m.r1), ScaleVec(s, m.r2))
  }

  /** Determinant as the scalar triple product of the rows. */
  function Det(m: Mat3): real {
    Dot(m.r0, Cross(m.r1, m.r2))
  }

  /** Transposed cofactor matrix: its columns are the cross products of
      pairs of rows. */
  function Adjugate(m: Mat3): Mat3 {
    Transpose(Mat3(Cross(m.r1, m.r2), Cross(m.r2, m.r0), Cross(m.r0, m.r1)))
  }

  predicate IsInverse(m: Mat3, n: Mat3) {
    Mul(m, n) == Identity() && Mul(n, m) == Identity()
  }

  /** `np.linalg.inv` on exact reals: the inverse exists exactly when the
      determinant is non-zero (numpy raises `LinAlgError` otherwise), and it
      is then a two-sided inverse. */
  function Inverse(m: Mat3): (r: Option<Mat3>)
    ensures r.Some? <==> Det(m) != 0.0
    ensures r.Some? ==> IsInverse(m, r.value)
  {
    var det := Det(m);
    if det == 0.0 then None
    else
      InverseRight(m);
      InverseLeft(m);
      Some(ScaleMat(1.0 / det, Adjugate(m)))
  }

  /** A cross product is orthogonal to both of its factors. */
  lemma CrossOrthogonal(a: Vec3, b: Vec3)
    ensures Dot(a, Cross(a, b)) == 0.0 && Dot(b, Cross(a, b)) == 0.0
  {
  }

  /** The scalar triple product is invariant under cyclic permutation. */
  lemma TripleCyclic(a: Vec3, b: Vec3, c: Vec3)
    ensures Dot(a, Cross(b, c)) == Dot(b, Cross(c, a))
  {
  }

  /** The determinant of the transpose, as the triple product of the columns. */
  lemma DetByColumns(m: Mat3)
    ensures Dot(Col(m, 0), Cross(Col(m, 1), Col(m, 2))) == Det(m)
  {
  }

  /** The columns of the adjugate are the cross products of pairs of rows. */
  lemma AdjugateColumns(m: Mat3)
    ensures Col(Adjugate(m), 0) == Cross(m.r1, m.r2)
    ensures Col(Adjugate(m), 1) == Cross(m.r2, m.r0)
    ensures Col(Adjugate(m), 2) == Cross(m.r0, m.r1)
  {
  }

  /** Cofactor (i, k) computed from the rows of the matrix with rows a, b, c
      equals the same cofactor computed from its columns; the two differ only
      in the order of the factors of one product. */
  lemma Cofactor00(a: Vec3, b: Vec3, c: Vec3)
    ensures Cross(b, c).v0 == Cross(Vec3(a.v1, b.v1, c.v1), Vec3(a.v2, b.v2, c.v2)).v0
  {
  }

  lemma Cofactor01(a: Vec3, b: Vec3, c: Vec3)
    ensures Cross(c, a).v0 == Cross(Vec3(a.v1, b.v1, c.v1), Vec3(a.v2, b.v2, c.v2)).v1
  {
  }

  lemma Cofactor02(a: Vec3, b: Vec3, c: Vec3)
    ensures Cross(a, b).v0 == Cross(Vec3(a.v1, b.v1, c.v1), Vec3(a.v2, b.v2, c.v2)).v2
  {
  }

  lemma Cofactor10(a: Vec3, b: Vec3, c: Vec3)
    ensures Cross(b, c).v1 == Cross(Vec3(a.v2, b.v2, c.v2), Vec3(a.v0, b.v0, c.v0)).v0
  {
  }

  lemma Cofactor11(a: Vec3, b: Vec3, c: Vec3)
    ensures Cross(c, a).v1 == Cross(Vec3(a.v2, b.v2, c.v2), Vec3(a.v0, b.v0, c.v0)).v1
  {
  }

  lemma Cofactor12(a: Vec3, b: Vec3, c: Vec3)
    ensures Cross(a, b).v1 == Cross(Vec3(a.v2, b.v2, c.v2), Vec3(a.v0, b.v0, c.v0)).v2
  {
  }

  lemma Cofactor20(a: Vec3, b: Vec3, c: Vec3)
    ensures Cross(b, c).v2 == Cross(Vec3(a.v0, b.v0, c.v0), Vec3(a.v1, b.v1, c.v1)).v0
  {
  }

  lemma Cofactor21(a: Vec3, b: Vec3, c: Vec3)
    ensures Cross(c, a).v2 == Cross(Vec3(a.v0, b.v0, c.v0), Vec3(a.v1, b.v1, c.v1)).v1
  {
  }

  lemma Cofactor22(a: Vec3, b: Vec3, c: Vec3)
    ensures Cross(a, b).v2 == Cross(Vec3(a.v0, b.v0, c.v0), Vec3(a.v1, b.v1, c.v1)).v2
  {
  }

  /** The rows of the adjugate are the cross products of pairs of columns. */
  lemma AdjugateRow0(m: Mat3)
    ensures Adjugate(m).r0 == Cross(Col(m, 1), Col(m, 2))
  {
    Cofactor00(m.r0, m.r1, m.r2);
    Cofactor01(m.r0, m.r1, m.r2);
    Cofactor02(m.r0, m.r1, m.r2);
  }

  lemma AdjugateRow1(m: Mat3)
    ensures Adjugate(m).r1 == Cross(Col(m, 2), Col(m, 0))
  {
    Cofactor10(m.r0, m.r1, m.r2);
    Cofactor11(m.r0, m.r1, m.r2);
    Cofactor12(m.r0, m.r1, m.r2);
  }

  lemma AdjugateRow2(m: Mat3)
    ensures Adjugate(m).r2 == Cross(Col(m, 0), Col(m, 1))
  {
    Cofactor20(m.r0, m.r1, m.r2);
    Cofactor21(m.r0, m.r1, m.r2);
    Cofactor22(m.r0, m.r1, m.r2);
  }

  /** Right-scaling one factor of a dot product with a known value. */
  lemma ScaledDotValue(x: Vec3, y: Vec3, s: real, d: real, v: real)
    requires Dot(x, y) == d && s * d == v
    ensures Dot(x, ScaleVec(s, y)) == v
  {
  }

  /** Left-scaling one factor of a dot product with a known value. */
  lemma ScaledDotValueLeft(x: Vec3, y: Vec3, s: real, d: real, v: real)
    requires Dot(y, x) == d && s * d == v
    ensures Dot(ScaleVec(s, x), y) == v
  {
  }

  lemma Reciprocal(d: real)
    requires d != 0.0
    ensures (1.0 / d) * d == 1.0 && (1.0 / d) * 0.0 == 0.0
  {
  }

  lemma ScaledCol(s: real, n: Mat3, j: nat)
    requires j < 3
    ensures Col(ScaleMat(s, n), j) == ScaleVec(s, Col(n, j))
  {
  }

  /** m * (adj(m) / det(m)) == I: row i of m against the scaled cross
      product of the other two rows. */
  lemma InverseRight(m: Mat3)
    requires Det(m) != 0.0
    ensures Mul(m, ScaleMat(1.0 / Det(m), Adjugate(m))) == Identity()
  {
    var r0, r1, r2 := m.r0, m.r1, m.r2;
    var d := Det(m);
    var s := 1.0 / d;
    Reciprocal(d);
    var x0, x1, x2 := Cross(r1, r2), Cross(r2, r0), Cross(r0, r1);
    CrossOrthogonal(r1, r2);
    CrossOrthogonal(r2, r0);
    CrossOrthogonal(r0, r1);
    TripleCyclic(r0, r1, r2);
    TripleCyclic(r1, r2, r0);
    var n := Adjugate(m);
    AdjugateColumns(m);
    ScaledCol(s, n, 0);
    ScaledCol(s, n, 1);
    ScaledCol(s, n, 2);
    ScaledDotValue(r0, x0, s, d, 1.0);
    ScaledDotValue(r0, x1, s, 0.0, 0.0);
    ScaledDotValue(r0, x2, s, 0.0, 0.0);
    ScaledDotValue(r1, x0, s, 0.0, 0.0);
    ScaledDotValue(r1, x1, s, d, 1.0);
    ScaledDotValue(r1, x2, s, 0.0, 0.0);
    ScaledDotValue(r2, x0, s, 0.0, 0.0);
    ScaledDotValue(r2, x1, s, 0.0, 0.0);
    ScaledDotValue(r2, x2, s, d, 1.0);
  }

  /** (adj(m) / det(m)) * m == I: the scaled cross product of two columns
      against column j of m. */
  lemma InverseLeft(m: Mat3)
    requires Det(m) != 0.0
    ensures Mul(ScaleMat(1.0 / Det(m), Adjugate(m)), m) == Identity()
  {
    var c0, c1, c2 := Col(m, 0), Col(m, 1), Col(m, 2);
    var d := Det(m);
    var s := 1.0 / d;
    Reciprocal(d);
    AdjugateRow0(m);
    AdjugateRow1(m);
    AdjugateRow2(m);
    DetByColumns(m);
    var y0, y1, y2 := Cross(c1, c2), Cross(c2, c0), Cross(c0, c1);
    CrossOrthogonal(c1, c2);
    CrossOrthogonal(c2, c0);
    CrossOrthogonal(c0, c1);
    TripleCyclic(c0, c1, c2);
    TripleCyclic(c1, c2, c0);
    var n := ScaleMat(s, Adjugate(m));
    assert n.r0 == ScaleVec(s, y0);
    assert n.r1 == ScaleVec(s, y1);
    assert n.r2 == ScaleVec(s, y2);
    ScaledDotValueLeft(y0, c0, s, d, 1.0);
    ScaledDotValueLeft(y0, c1, s, 0.0, 0.0);
    ScaledDotValueLeft(y0, c2, s, 0.0, 0.0);
    ScaledDotValueLeft(y1, c0, s, 0.0, 0.0);
    ScaledDotValueLeft(y1, c1, s, d, 1.0);
    ScaledDotValueLeft(y1, c2, s, 0.0, 0.0);
    ScaledDotValueLeft(y2, c0, s, 0.0, 0.0);
    ScaledDotValueLeft(y2, c1, s, 0.0, 0.0);
    ScaledDotValueLeft(y2, c2, s, d, 1.0);
  }

  // ---- products ----

  lemma DotRowAssoc(x: Vec3, b: Mat3, v: Vec3)
    ensures Dot(Vec3(Dot(x, Col(b, 0)), Dot(x, Col(b, 1)), Dot(x, Col(b, 2))), v) == Dot(x, MulVec(b, v))
  {
  }

  /** Applying a product is applying its factors in turn. */
  lemma MulVecMul(a: Mat3, b: Mat3, v: Vec3)
    ensures MulVec(Mul(a, b), v) == MulVec(a, MulVec(b, v))
  {
    DotRowAssoc(a.r0, b, v);
    DotRowAssoc(a.r1, b, v);
    DotRowAssoc(a.r2, b, v);
  }

  /** Column j of a product is the left factor applied to column j of the right one. */
  lemma ColOfMul(a: Mat3, b: Mat3, j: nat)
    requires j < 3
    ensures Col(Mul(a, b), j) == MulVec(a, Col(b, j))
  {
  }

  lemma ColumnsDetermine(m: Mat3, n: Mat3)
    requires Col(m, 0) == Col(n, 0) && Col(m, 1) == Col(n, 1) && Col(m, 2) == Col(n, 2)
    ensures m == n
  {
  }

  lemma MulAssoc(a: Mat3, b: Mat3, c: Mat3)
    ensures Mul(Mul(a, b), c) == Mul(a, Mul(b, c))
  {
    forall j | 0 <= j < 3
      ensures Col(Mul(Mul(a, b), c), j) == Col(Mul(a, Mul(b, c)), j)
    {
      ColOfMul(Mul(a, b), c, j);
      MulVecMul(a, b, Col(c, j));
      ColOfMul(b, c, j);
      ColOfMul(a, Mul(b, c), j);
    }
    ColumnsDetermine(Mul(Mul(a, b), c), Mul(a, Mul(b, c)));
  }

  lemma MulIdentity(m: Mat3)
    ensures Mul(m, Identity()) == m && Mul(Identity(), m) == m
  {
  }

  lemma MulVecIdentity(v: Vec3)
    ensures MulVec(Identity(), v) == v
  {
  }

  lemma TransposeTwice(m: Mat3)
    ensures Transpose(Transpose(m)) == m
  {
  }

  /** Entry (i, j) of a product is the sum over k of a[i][k] * b[k][j]. */
  lemma MulAt(a: Mat3, b: Mat3, i: nat, j: nat)
    requires i < 3 && j < 3
    ensures Mul(a, b).At(i, j) == a.At(i, 0) * b.At(0, j) + a.At(i, 1) * b.At(1, j) + a.At(i, 2) * b.At(2, j)
  {
  }

  /** Component i of m * v is the sum over k of m[i][k] * v[k]. */
  lemma MulVecAt(m: Mat3, v: Vec3, i: nat)
    requires i < 3
    ensures MulVec(m, v).At(i) == m.At(i, 0) * v.At(0) + m.At(i, 1) * v.At(1) + m.At(i, 2) * v.At(2)
  {
  }

  lemma TransposeAt(m: Mat3, i: nat, j: nat)
    requires i < 3 && j < 3
    ensures Transpose(m).At(i, j) == m.At(j, i)
  {
  }
}
