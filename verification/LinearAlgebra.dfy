/** Vectors and matrices of exact reals, with the few laws the bandit proofs need.
    A matrix is a sequence of rows; a square matrix of dimension d has d rows of length d. */
module LinearAlgebra {
  import opened RealFacts

  type Vector = seq<real>
  type Matrix = seq<Vector>

  ghost predicate IsSquare(m: Matrix, d: nat) {
    |m| == d && forall i :: 0 <= i < d ==> |m[i]| == d
  }

  function Zeros(d: nat): (v: Vector)
    ensures |v| == d && forall i :: 0 <= i < d ==> v[i] == 0.0
  {
    seq(d, _ => 0.0)
  }

  function Add(u: Vector, v: Vector): (w: Vector)
    requires |u| == |v|
    ensures |w| == |u| && forall i :: 0 <= i < |u| ==> w[i] == u[i] + v[i]
  {
    seq(|u|, i requires 0 <= i < |u| => u[i] + v[i])
  }

  function Scale(c: real, u: Vector): (w: Vector)
    ensures |w| == |u| && forall i :: 0 <= i < |u| ==> w[i] == c * u[i]
  {
    seq(|u|, i requires 0 <= i < |u| => c * u[i])
  }

  function Sub(u: Vector, v: Vector): (w: Vector)
    requires |u| == |v|
    ensures |w| == |u| && forall i :: 0 <= i < |u| ==> w[i] == u[i] - v[i]
  {
    seq(|u|, i requires 0 <= i < |u| => u[i] - v[i])
  }

  /** z = v + c * w, component by component. */
  ghost predicate IsShift(v: Vector, c: real, w: Vector, z: Vector) {
    |v| == |w| == |z| && forall i :: 0 <= i < |z| ==> z[i] == v[i] + c * w[i]
  }

  /** The dot product of the first n components. */
  function DotUpTo(u: Vector, v: Vector, n: nat): real
    requires n <= |u| && n <= |v|
  {
    if n == 0 then 0.0 else DotUpTo(u, v, n - 1) + u[n - 1] * v[n - 1]
  }

  function Dot(u: Vector, v: Vector): real
    requires |u| == |v|
  {
    DotUpTo(u, v, |u|)
  }

  function Apply(m: Matrix, v: Vector): (w: Vector)
    requires IsSquare(m, |v|)
    ensures |w| == |v| && forall i :: 0 <= i < |v| ==> w[i] == Dot(m[i], v)
  {
    seq(|v|, i requires 0 <= i < |v| => Dot(m[i], v))
  }

  /** The i-th standard basis vector. */
  function Basis(d: nat, i: nat): (e: Vector)
    requires i < d
    ensures |e| == d && forall k :: 0 <= k < d ==> e[k] == if k == i then 1.0 else 0.0
  {
    seq(d, k => if k == i then 1.0 else 0.0)
  }

  function Identity(d: nat): (m: Matrix)
    ensures IsSquare(m, d) && forall i :: 0 <= i < d ==> m[i] == Basis(d, i)
  {
    seq(d, i requires 0 <= i < d => Basis(d, i))
  }

  /** The product u * transpose(v). */
  function Outer(u: Vector, v: Vector): (m: Matrix)
    requires |u| == |v|
    ensures IsSquare(m, |u|) && forall i :: 0 <= i < |u| ==> m[i] == Scale(u[i], v)
  {
    seq(|u|, i requires 0 <= i < |u| => Scale(u[i], v))
  }

  function MatrixAdd(a: Matrix, b: Matrix, d: nat): (m: Matrix)
    requires IsSquare(a, d) && IsSquare(b, d)
    ensures IsSquare(m, d) && forall i :: 0 <= i < d ==> m[i] == Add(a[i], b[i])
  {
    seq(d, i requires 0 <= i < d => Add(a[i], b[i]))
  }

  function MatrixScale(c: real, a: Matrix, d: nat): (m: Matrix)
    requires IsSquare(a, d)
    ensures IsSquare(m, d) && forall i :: 0 <= i < d ==> m[i] == Scale(c, a[i])
  {
    seq(d, i requires 0 <= i < d => Scale(c, a[i]))
  }

  function Column(m: Matrix, j: nat, d: nat): (v: Vector)
    requires IsSquare(m, d) && j < d
    ensures |v| == d && forall i :: 0 <= i < d ==> v[i] == m[i][j]
  {
    seq(d, i requires 0 <= i < d => m[i][j])
  }

  function Multiply(a: Matrix, b: Matrix, d: nat): (m: Matrix)
    requires IsSquare(a, d) && IsSquare(b, d)
    ensures IsSquare(m, d)
    ensures forall i, j :: 0 <= i < d && 0 <= j < d ==> m[i][j] == Dot(a[i], Column(b, j, d))
  {
    seq(d, i requires 0 <= i < d =>
      seq(d, j requires 0 <= j < d => Dot(a[i], Column(b, j, d))))
  }

  ghost predicate IsSymmetric(m: Matrix, d: nat)
    requires IsSquare(m, d)
  {
    forall i, j :: 0 <= i < d && 0 <= j < d ==> m[i][j] == m[j][i]
  }

  // ---------------------------------------------------------------- dot product

  lemma {:induction false} DotUpToCommutes(u: Vector, v: Vector, n: nat)
    requires n <= |u| == |v|
    ensures DotUpTo(u, v, n) == DotUpTo(v, u, n)
  {
    if n != 0 {
      DotUpToCommutes(u, v, n - 1);
    }
  }

  lemma DotCommutes(u: Vector, v: Vector)
    requires |u| == |v|
    ensures Dot(u, v) == Dot(v, u)
  {
    DotUpToCommutes(u, v, |u|);
  }

  lemma {:induction false} DotUpToLinear(u: Vector, v: Vector, w: Vector, c: real, z: Vector, n: nat)
    requires n <= |u| == |v| == |w| == |z|
    requires IsShift(v, c, w, z)
    ensures DotUpTo(u, z, n) == DotUpTo(u, v, n) + c * DotUpTo(u, w, n)
  {
    if n != 0 {
      DotUpToLinear(u, v, w, c, z, n - 1);
      var s, a, b, k := u[n - 1], v[n - 1], w[n - 1], DotUpTo(u, w, n - 1);
      assert z[n - 1] == a + c * b;
      assert s * (a + c * b) == s * a + c * (s * b);
      assert c * k + c * (s * b) == c * (k + s * b);
    }
  }

  /** Linearity of the dot product, for z = v + c * w. */
  lemma DotLinear(u: Vector, v: Vector, w: Vector, c: real, z: Vector)
    requires |u| == |v| == |w| == |z|
    requires IsShift(v, c, w, z)
    ensures Dot(u, z) == Dot(u, v) + c * Dot(u, w)
  {
    DotUpToLinear(u, v, w, c, z, |u|);
  }

  lemma DotAdd(u: Vector, v: Vector, w: Vector)
    requires |u| == |v| == |w|
    ensures Dot(u, Add(v, w)) == Dot(u, v) + Dot(u, w)
  {
    DotLinear(u, v, w, 1.0, Add(v, w));
  }

  lemma DotSub(u: Vector, v: Vector, w: Vector)
    requires |u| == |v| == |w|
    ensures Dot(u, Sub(v, w)) == Dot(u, v) - Dot(u, w)
  {
    DotLinear(u, v, w, -1.0, Sub(v, w));
  }

  lemma {:induction false} DotUpToZeros(u: Vector, z: Vector, n: nat)
    requires n <= |u| == |z| && forall i :: 0 <= i < n ==> z[i] == 0.0
    ensures DotUpTo(u, z, n) == 0.0
  {
    if n != 0 {
      DotUpToZeros(u, z, n - 1);
    }
  }

  lemma DotZeros(u: Vector)
    ensures Dot(u, Zeros(|u|)) == 0.0
  {
    DotUpToZeros(u, Zeros(|u|), |u|);
  }

  lemma DotScale(u: Vector, c: real, v: Vector)
    requires |u| == |v|
    ensures Dot(u, Scale(c, v)) == c * Dot(u, v)
  {
    DotLinear(u, Zeros(|u|), v, c, Scale(c, v));
    DotZeros(u);
  }

  lemma {:induction false} DotUpToBasis(u: Vector, i: nat, n: nat)
    requires i < |u| && n <= |u|
    ensures DotUpTo(u, Basis(|u|, i), n) == if i < n then u[i] else 0.0
  {
    if n != 0 {
      DotUpToBasis(u, i, n - 1);
    }
  }

  lemma DotBasis(u: Vector, i: nat)
    requires i < |u|
    ensures Dot(u, Basis(|u|, i)) == u[i]
  {
    DotUpToBasis(u, i, |u|);
  }

  lemma {:induction false} DotUpToSelf(u: Vector, n: nat)
    requires n <= |u|
    ensures DotUpTo(u, u, n) >= 0.0
    ensures DotUpTo(u, u, n) == 0.0 ==> forall i :: 0 <= i < n ==> u[i] == 0.0
  {
    if n != 0 {
      DotUpToSelf(u, n - 1);
      Square(u[n - 1], u[n - 1] * u[n - 1]);
    }
  }

  lemma DotSelf(u: Vector)
    ensures Dot(u, u) >= 0.0
    ensures Dot(u, u) == 0.0 <==> u == Zeros(|u|)
  {
    DotUpToSelf(u, |u|);
    DotZeros(u);
    if Dot(u, u) == 0.0 {
      assert u == Zeros(|u|);
    }
  }

  // ------------------------------------------------------------- matrix action

  lemma ApplyIdentity(v: Vector)
    ensures Apply(Identity(|v|), v) == v
  {
    forall i | 0 <= i < |v| ensures Apply(Identity(|v|), v)[i] == v[i] {
      DotCommutes(Identity(|v|)[i], v);
      DotBasis(v, i);
    }
  }

  lemma DotRankOneRow(row: Vector, c: real, u: Vector, v: Vector, t: real, i: nat)
    requires i < |u| == |row| == |v| && t == c * Dot(u, v)
    ensures Dot(Add(row, Scale(c, Scale(u[i], u))), v) == Dot(row, v) + t * u[i]
  {
    var change := Scale(c, Scale(u[i], u));
    calc {
      Dot(Add(row, change), v);
      { DotCommutes(Add(row, change), v); DotAdd(v, row, change); }
      Dot(v, row) + Dot(v, change);
      { DotScale(v, c, Scale(u[i], u)); DotScale(v, u[i], u); }
      Dot(v, row) + c * (u[i] * Dot(v, u));
      { DotCommutes(v, row); DotCommutes(v, u); }
      Dot(row, v) + c * (u[i] * Dot(u, v));
      Dot(row, v) + t * u[i];
    }
  }

  /** A rank-one change of a matrix shifts its action by a multiple of one fixed vector. */
  lemma ApplyRankOne(m: Matrix, c: real, u: Vector, v: Vector, t: real)
    requires IsSquare(m, |v|) && |u| == |v| && t == c * Dot(u, v)
    ensures IsShift(Apply(m, v), t, u, Apply(MatrixAdd(m, MatrixScale(c, Outer(u, u), |v|), |v|), v))
  {
    forall i | 0 <= i < |v|
      ensures Apply(MatrixAdd(m, MatrixScale(c, Outer(u, u), |v|), |v|), v)[i] == Apply(m, v)[i] + t * u[i]
    {
      DotRankOneRow(m[i], c, u, v, t, i);
    }
  }

  /** Linearity of the matrix action, for z = u + c * v. */
  lemma ApplyLinear(m: Matrix, u: Vector, v: Vector, c: real, z: Vector)
    requires IsSquare(m, |v|) && |u| == |v| == |z|
    requires IsShift(u, c, v, z)
    ensures IsShift(Apply(m, u), c, Apply(m, v), Apply(m, z))
  {
    forall i | 0 <= i < |v| ensures Apply(m, z)[i] == Apply(m, u)[i] + c * Apply(m, v)[i] {
      DotLinear(m[i], u, v, c, z);
    }
  }

  lemma ApplyScale(m: Matrix, c: real, v: Vector)
    requires IsSquare(m, |v|)
    ensures Apply(m, Scale(c, v)) == Scale(c, Apply(m, v))
  {
    hide DotUpTo;
    forall i | 0 <= i < |v| ensures Apply(m, Scale(c, v))[i] == Scale(c, Apply(m, v))[i] {
      DotScale(m[i], c, v);
    }
  }

  lemma ApplyBasis(m: Matrix, j: nat, d: nat)
    requires IsSquare(m, d) && j < d
    ensures Apply(m, Basis(d, j)) == Column(m, j, d)
  {
    forall i | 0 <= i < d ensures Apply(m, Basis(d, j))[i] == m[i][j] {
      DotBasis(m[i], j);
    }
  }

  lemma ApplyRightInverse(a: Matrix, b: Matrix, d: nat, v: Vector)
    requires IsSquare(a, d) && IsSquare(b, d) && |v| == d && IsRightInverse(a, b, d)
    ensures Apply(a, Apply(b, v)) == v
  {
  }

  lemma ProductEntry(a: Matrix, b: Matrix, d: nat, i: nat, j: nat)
    requires IsSquare(a, d) && IsSquare(b, d) && i < d && j < d
    ensures Multiply(a, b, d)[i][j] == Apply(a, Apply(b, Basis(d, j)))[i]
  {
    ApplyBasis(b, j, d);
  }

  lemma RowsEqual(a: Matrix, b: Matrix, d: nat)
    requires IsSquare(a, d) && IsSquare(b, d)
    requires forall i, j :: 0 <= i < d && 0 <= j < d ==> a[i][j] == b[i][j]
    ensures a == b
  {
    forall i | 0 <= i < d ensures a[i] == b[i] {
      assert forall j :: 0 <= j < d ==> a[i][j] == b[i][j];
    }
  }

  /** b undoes a from the right: a(b(v)) = v for every vector v. */
  ghost predicate IsRightInverse(a: Matrix, b: Matrix, d: nat)
    requires IsSquare(a, d) && IsSquare(b, d)
  {
    forall v: Vector {:trigger Apply(b, v)} :: |v| == d ==> Apply(a, Apply(b, v)) == v
  }

  /** A right inverse as an operator is a right inverse as a matrix. */
  lemma OperatorInverseIsMatrixInverse(a: Matrix, b: Matrix, d: nat)
    requires IsSquare(a, d) && IsSquare(b, d)
    requires IsRightInverse(a, b, d)
    ensures Multiply(a, b, d) == Identity(d)
  {
    forall i, j | 0 <= i < d && 0 <= j < d ensures Multiply(a, b, d)[i][j] == Identity(d)[i][j] {
      ProductEntry(a, b, d, i, j);
      ApplyRightInverse(a, b, d, Basis(d, j));
    }
    RowsEqual(Multiply(a, b, d), Identity(d), d);
  }

  /** An operator that can be moved across the dot product is a symmetric matrix. */
  lemma SelfAdjointIsSymmetric(m: Matrix, d: nat)
    requires IsSquare(m, d)
    requires forall u: Vector, v: Vector :: |u| == d && |v| == d ==> Dot(u, Apply(m, v)) == Dot(Apply(m, u), v)
    ensures IsSymmetric(m, d)
  {
    forall i, j | 0 <= i < d && 0 <= j < d ensures m[i][j] == m[j][i] {
      var ei, ej := Basis(d, i), Basis(d, j);
      ApplyBasis(m, j, d);
      ApplyBasis(m, i, d);
      DotCommutes(ei, Column(m, j, d));
      DotBasis(Column(m, j, d), i);
      DotBasis(Column(m, i, d), j);
      assert Dot(ei, Apply(m, ej)) == Dot(Apply(m, ei), ej);
    }
  }
}
