/**
 * The matrix-expression datatype: an unevaluated product tree whose leaves are
 * the identity, scalars and dense matrices.  Every operation of the interface
 * (isIdentity, scalars, matrices, optimize) is one function here, defined by
 * cases on the variant exactly as the four implementing classes define it.
 */
module MatrixExpression {
  import opened Wrappers

  /** The representation invariant of a matrix: at least one row, at least
      one column, and every row as long as row 0. */
  predicate Rectangular(rows: seq<seq<real>>) {
    && |rows| > 0
    && |rows[0]| > 0
    && forall i :: 0 <= i < |rows| ==> |rows[i]| == |rows[0]|
  }

  /** Row-major matrix contents that satisfy the representation invariant. */
  type Grid = rows: seq<seq<real>> | Rectangular(rows) witness [[0.0]]

  datatype Expr =
    | Identity
    | Scalar(value: real)
    | Matrix(rows: Grid)
    | Product(m1: Expr, m2: Expr)

  /** Why building a matrix failed, in the order the checks are made. */
  datatype RepError =
    | NoRows               // the table has no row
    | NoColumns            // row 0 is empty
    | RaggedRow(row: nat)  // the first row whose length differs from row 0's

  /** The identity for all matrix computations. */
  const I: Expr := Identity

  /** make(value): a scalar leaf; no value is rejected. */
  function MakeScalar(value: real): (r: Expr)
    ensures r.Scalar? && r.value == value
  {
    Scalar(value)
  }

  /** times(m1, m2): a product node; no simplification of any kind. */
  function Times(m1: Expr, m2: Expr): (r: Expr)
    ensures r.Product? && r.m1 == m1 && r.m2 == m2
    ensures r != m1 && r != m2
  {
    var r := Product(m1, m2);
    assert Size(r) > Size(m1) && Size(r) > Size(m2);
    r
  }

  /** The number of nodes of an expression. */
  function Size(e: Expr): nat {
    match e
    case Product(m1, m2) => 1 + Size(m1) + Size(m2)
    case _ => 1
  }

  // ---------------------------------------------------------------------------
  // Construction of matrix leaves (the checks of the representation invariant)
  // ---------------------------------------------------------------------------

  /** The first row at index `from` or later whose length differs from row 0's. */
  function FirstRagged(rows: seq<seq<real>>, from: nat): (v: Option<RepError>)
    requires 0 < |rows| && from <= |rows|
    ensures v.None? <==> forall i :: from <= i < |rows| ==> |rows[i]| == |rows[0]|
    ensures v.Some? ==>
      && v.value.RaggedRow?
      && from <= v.value.row < |rows|
      && |rows[v.value.row]| != |rows[0]|
      && forall j :: from <= j < v.value.row ==> |rows[j]| == |rows[0]|
    decreases |rows| - from
  {
    if from == |rows| then None
    else if |rows[from]| != |rows[0]| then Some(RaggedRow(from))
    else FirstRagged(rows, from + 1)
  }

  /** The violation of the representation invariant that the checks report
      first, or None when the table is a valid matrix. */
  function RepViolation(rows: seq<seq<real>>): (v: Option<RepError>)
    ensures v.None? <==> Rectangular(rows)
    ensures v == Some(NoRows) <==> |rows| == 0
    ensures v == Some(NoColumns) <==> |rows| > 0 && |rows[0]| == 0
    ensures v.Some? && v.value.RaggedRow? ==>
      && 0 < v.value.row < |rows|
      && |rows[0]| > 0
      && |rows[v.value.row]| != |rows[0]|
      && forall j :: 0 <= j < v.value.row ==> |rows[j]| == |rows[0]|
  {
    if |rows| == 0 then Some(NoRows)
    else if |rows[0]| == 0 then Some(NoColumns)
    else FirstRagged(rows, 1)
  }

  /** make(array) on the contents of the caller's table: a matrix leaf holding
      exactly those contents, or the error the representation checks raise. */
  function FromRows(rows: seq<seq<real>>): (r: Result<Expr, RepError>)
    ensures r.Ok? <==> Rectangular(rows)
    ensures r.Ok? ==> r.value.Matrix? && r.value.rows == rows
    ensures r.Err? ==> RepViolation(rows) == Some(r.error)
  {
    match RepViolation(rows)
    case Some(err) => Err(err)
    case None => Ok(Matrix(rows))
  }

  // ---------------------------------------------------------------------------
  // Observers used to state the contracts
  // ---------------------------------------------------------------------------

  /** The binary skeleton of an expression: its products, with every leaf
      collapsed to one point. */
  datatype Skeleton = Leaf | Node(left: Skeleton, right: Skeleton)

  function Shape(e: Expr): Skeleton {
    match e
    case Product(m1, m2) => Node(Shape(m1), Shape(m2))
    case _ => Leaf
  }

  /** The leaves of an expression, left to right. */
  function Leaves(e: Expr): seq<Expr> {
    match e
    case Product(m1, m2) => Leaves(m1) + Leaves(m2)
    case _ => [e]
  }

  /** The values of the scalar leaves, left to right. */
  function ScalarLeaves(e: Expr): seq<real> {
    match e
    case Scalar(v) => [v]
    case Product(m1, m2) => ScalarLeaves(m1) + ScalarLeaves(m2)
    case _ => []
  }

  /** The contents of the matrix leaves, left to right. */
  function MatrixLeaves(e: Expr): seq<Grid> {
    match e
    case Matrix(rows) => [rows]
    case Product(m1, m2) => MatrixLeaves(m1) + MatrixLeaves(m2)
    case _ => []
  }

  predicate HasMatrix(e: Expr) {
    match e
    case Matrix(_) => true
    case Product(m1, m2) => HasMatrix(m1) || HasMatrix(m2)
    case _ => false
  }

  predicate HasScalar(e: Expr) {
    match e
    case Scalar(_) => true
    case Product(m1, m2) => HasScalar(m1) || HasScalar(m2)
    case _ => false
  }

  // ---------------------------------------------------------------------------
  // The operations of the interface
  // ---------------------------------------------------------------------------

  /** 1 on the diagonal, 0 elsewhere. */
  function Delta(r: nat, c: nat): real {
    if r == c then 1.0 else 0.0
  }

  /** A matrix is the identity when it is square and is the Kronecker delta;
      then every row, not only row 0, is as long as the matrix is high. */
  predicate IsKroneckerDelta(rows: Grid)
    ensures IsKroneckerDelta(rows) ==> forall r :: 0 <= r < |rows| ==> |rows[r]| == |rows|
  {
    && |rows| == |rows[0]|
    && forall r, c :: 0 <= r < |rows| && 0 <= c < |rows| ==> rows[r][c] == Delta(r, c)
  }

  /** Every number in the sequence is 1. */
  predicate AllOnes(xs: seq<real>) {
    forall i :: 0 <= i < |xs| ==> xs[i] == 1.0
  }

  /** isIdentity: a syntactic test, conservative on products.  It holds
      exactly when every scalar in the expression is 1 and every matrix is
      the identity matrix. */
  predicate IsIdentity(e: Expr)
    ensures IsIdentity(e) <==>
      AllOnes(ScalarLeaves(e)) && forall m :: m in MatrixLeaves(e) ==> IsKroneckerDelta(m)
  {
    match e
    case Identity => true
    case Scalar(v) => assert ScalarLeaves(e)[0] == v; v == 1.0
    case Matrix(rows) => IsKroneckerDelta(rows)
    case Product(m1, m2) =>
      AllOnesAppend(ScalarLeaves(m1), ScalarLeaves(m2));
      IsIdentity(m1) && IsIdentity(m2)
  }

  /** A concatenation holds only ones exactly when both parts do. */
  lemma AllOnesAppend(xs: seq<real>, ys: seq<real>)
    ensures AllOnes(xs + ys) <==> AllOnes(xs) && AllOnes(ys)
  {
    if AllOnes(xs + ys) {
      forall i | 0 <= i < |xs| ensures xs[i] == 1.0 {
        assert (xs + ys)[i] == xs[i];
      }
      forall i | 0 <= i < |ys| ensures ys[i] == 1.0 {
        assert (xs + ys)[|xs| + i] == ys[i];
      }
    }
  }


  /** scalars: every matrix leaf replaced by I, everything else kept. */
  function Scalars(e: Expr): (r: Expr)
    ensures !HasMatrix(r)
    ensures Shape(r) == Shape(e)
    ensures ScalarLeaves(r) == ScalarLeaves(e)
  {
    match e
    case Identity => e
    case Scalar(_) => e
    case Matrix(_) => I
    case Product(m1, m2) => Times(Scalars(m1), Scalars(m2))
  }

  /** matrices: every scalar leaf replaced by I, everything else kept. */
  function Matrices(e: Expr): (r: Expr)
    ensures !HasScalar(r)
    ensures Shape(r) == Shape(e)
    ensures MatrixLeaves(r) == MatrixLeaves(e)
  {
    match e
    case Identity => e
    case Scalar(_) => I
    case Matrix(_) => e
    case Product(m1, m2) => Times(Matrices(m1), Matrices(m2))
  }

  /** optimize: a product becomes (its scalars) * (its matrices); a leaf is
      returned as it is. */
  function Optimize(e: Expr): (r: Expr)
    ensures r.Product? <==> e.Product?
    ensures !e.Product? ==> r == e
    ensures e.Product? ==>
      && !HasMatrix(r.m1)
      && !HasScalar(r.m2)
      && ScalarLeaves(r) == ScalarLeaves(e)
      && MatrixLeaves(r) == MatrixLeaves(e)
  {
    match e
    case Product(_, _) =>
      assert ScalarLeaves(Matrices(e)) == [] by { NoScalarLeaves(Matrices(e)); }
      assert MatrixLeaves(Scalars(e)) == [] by { NoMatrixLeaves(Scalars(e)); }
      Times(Scalars(e), Matrices(e))
    case _ => e
  }

  lemma {:induction false} NoScalarLeaves(e: Expr)
    ensures ScalarLeaves(e) == [] <==> !HasScalar(e)
  {
    match e
    case Product(m1, m2) =>
      NoScalarLeaves(m1);
      NoScalarLeaves(m2);
    case _ =>
  }

  lemma {:induction false} NoMatrixLeaves(e: Expr)
    ensures MatrixLeaves(e) == [] <==> !HasMatrix(e)
  {
    match e
    case Product(m1, m2) =>
      NoMatrixLeaves(m1);
      NoMatrixLeaves(m2);
    case _ =>
  }
}
