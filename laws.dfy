/**
 * What scalars, matrices, optimize and isIdentity promise, stated over the
 * datatype and proved by structural induction.
 *
 * The value of an expression is given by Denote: in any algebra where scalars
 * commute with matrices and I is neutral on both sides (matrix products with
 * compatible dimensions are one), a product tree evaluates to the product of
 * its scalars, in order, times the ordered chain of its matrices.  ProductValue
 * shows that this reading is compositional: the value of a product is the
 * product of the values.  "An expression with the same value" is stated as
 * "an expression with the same denotation".
 */
module Laws {
  import opened MatrixExpression

  /** A scalar coefficient times an ordered chain of matrices. */
  datatype Value = Value(coeff: real, chain: seq<Grid>)

  function Denote(e: Expr): Value {
    Value(Prod(ScalarLeaves(e)), MatrixLeaves(e))
  }

  /** The product of a sequence of reals. */
  function Prod(xs: seq<real>): real {
    if |xs| == 0 then 1.0 else xs[0] * Prod(xs[1..])
  }

  lemma {:induction false} ProdAppend(xs: seq<real>, ys: seq<real>)
    ensures Prod(xs + ys) == Prod(xs) * Prod(ys)
  {
    if |xs| == 0 {
      assert xs + ys == ys;
    } else {
      assert (xs + ys)[0] == xs[0];
      assert (xs + ys)[1..] == xs[1..] + ys;
      ProdAppend(xs[1..], ys);
      var a, b, c := xs[0], Prod(xs[1..]), Prod(ys);
      assert Prod(xs + ys) == a * (b * c);
      assert a * (b * c) == (a * b) * c;
    }
  }

  /** A product of ones is one. */
  lemma {:induction false} ProdOfOnes(xs: seq<real>)
    requires forall i :: 0 <= i < |xs| ==> xs[i] == 1.0
    ensures Prod(xs) == 1.0
  {
    if |xs| > 0 {
      ProdOfOnes(xs[1..]);
    }
  }

  /** The leaves evaluate to what they stand for: I to 1 with no matrix, a
      scalar to itself, a matrix to itself with coefficient 1. */
  lemma LeafValues(v: real, rows: Grid)
    ensures Denote(I) == Value(1.0, [])
    ensures Denote(Scalar(v)) == Value(v, [])
    ensures Denote(Matrix(rows)) == Value(1.0, [rows])
  {
    assert Prod([v]) == v * Prod([]);
  }

  /** The value of a product is the product of the values of its operands:
      the coefficients multiply and the chains are concatenated in order. */
  lemma ProductValue(a: Expr, b: Expr)
    ensures Denote(Times(a, b))
         == Value(Denote(a).coeff * Denote(b).coeff, Denote(a).chain + Denote(b).chain)
  {
    ProdAppend(ScalarLeaves(a), ScalarLeaves(b));
  }

  // ---------------------------------------------------------------------------
  // scalars
  // ---------------------------------------------------------------------------

  /** scalars acts leaf by leaf: its leaves correspond one to one to those of
      the input, matrix leaves becoming I and all other leaves kept. */
  lemma {:induction false} ScalarsLeafwise(e: Expr)
    ensures |Leaves(Scalars(e))| == |Leaves(e)|
    ensures forall i :: 0 <= i < |Leaves(e)| ==>
      Leaves(Scalars(e))[i] == (if Leaves(e)[i].Matrix? then I else Leaves(e)[i])
  {
    match e
    case Product(m1, m2) =>
      ScalarsLeafwise(m1);
      ScalarsLeafwise(m2);
    case _ =>
  }

  /** scalars keeps the coefficient of the expression and drops its chain. */
  lemma ScalarsValue(e: Expr)
    ensures Denote(Scalars(e)) == Value(Denote(e).coeff, [])
  {
    NoMatrixLeaves(Scalars(e));
  }

  /** An expression is left unchanged by scalars exactly when it holds no
      matrix. */
  lemma {:induction false} ScalarsFixpoint(e: Expr)
    ensures Scalars(e) == e <==> !HasMatrix(e)
  {
    match e
    case Product(m1, m2) =>
      ScalarsFixpoint(m1);
      ScalarsFixpoint(m2);
    case _ =>
  }

  lemma ScalarsIdempotent(e: Expr)
    ensures Scalars(Scalars(e)) == Scalars(e)
  {
    ScalarsFixpoint(Scalars(e));
  }

  // ---------------------------------------------------------------------------
  // matrices
  // ---------------------------------------------------------------------------

  /** matrices acts leaf by leaf: scalar leaves become I, all other leaves
      are kept. */
  lemma {:induction false} MatricesLeafwise(e: Expr)
    ensures |Leaves(Matrices(e))| == |Leaves(e)|
    ensures forall i :: 0 <= i < |Leaves(e)| ==>
      Leaves(Matrices(e))[i] == (if Leaves(e)[i].Scalar? then I else Leaves(e)[i])
  {
    match e
    case Product(m1, m2) =>
      MatricesLeafwise(m1);
      MatricesLeafwise(m2);
    case _ =>
  }

  /** matrices denotes the product of all the matrices, in order. */
  lemma MatricesValue(e: Expr)
    ensures Denote(Matrices(e)) == Value(1.0, Denote(e).chain)
  {
    NoScalarLeaves(Matrices(e));
  }

  /** An expression is left unchanged by matrices exactly when it holds no
      scalar. */
  lemma {:induction false} MatricesFixpoint(e: Expr)
    ensures Matrices(e) == e <==> !HasScalar(e)
  {
    match e
    case Product(m1, m2) =>
      MatricesFixpoint(m1);
      MatricesFixpoint(m2);
    case _ =>
  }

  lemma MatricesIdempotent(e: Expr)
    ensures Matrices(Matrices(e)) == Matrices(e)
  {
    MatricesFixpoint(Matrices(e));
  }

  /** Applying both, in either order, leaves the bare skeleton: the same
      products with I at every leaf, which is an identity. */
  lemma {:induction false} ScalarsMatricesCommute(e: Expr)
    ensures Scalars(Matrices(e)) == Matrices(Scalars(e))
    ensures forall l :: l in Leaves(Scalars(Matrices(e))) ==> l == I
    ensures IsIdentity(Scalars(Matrices(e)))
  {
    match e
    case Product(m1, m2) =>
      ScalarsMatricesCommute(m1);
      ScalarsMatricesCommute(m2);
    case _ =>
  }

  // ---------------------------------------------------------------------------
  // optimize
  // ---------------------------------------------------------------------------

  /** times(scalars(), matrices()) has the value of the expression itself. */
  lemma FactoringPreservesValue(e: Expr)
    ensures Denote(Times(Scalars(e), Matrices(e))) == Denote(e)
  {
    ProductValue(Scalars(e), Matrices(e));
    ScalarsValue(e);
    MatricesValue(e);
    assert [] + Denote(e).chain == Denote(e).chain;
  }

  /** optimize returns an expression with the same value. */
  lemma OptimizePreservesValue(e: Expr)
    ensures Denote(Optimize(e)) == Denote(e)
  {
    if e.Product? {
      FactoringPreservesValue(e);
    }
  }

  /** The exact shape of optimize: a product becomes the product of its
      scalars and its matrices; a leaf is returned unchanged. */
  lemma OptimizeShape(e: Expr)
    ensures e.Product? ==> Optimize(e) == Times(Scalars(e), Matrices(e))
    ensures !e.Product? ==> Optimize(e) == e
    ensures e.Product? ==> Shape(Optimize(e)) == Node(Shape(e), Shape(e))
  {
  }

  /** optimize is not idempotent on products: every call wraps its result in
      a new top-level product. */
  lemma OptimizeNotIdempotent(e: Expr)
    requires e.Product?
    ensures Optimize(Optimize(e)) != Optimize(e)
    ensures Size(Optimize(Optimize(e))) > Size(Optimize(e))
  {
    var o := Optimize(e);
    var oo := Optimize(o);
    assert Shape(oo) == Node(Shape(o), Shape(o));
    assert Size(oo) == 1 + Size(Scalars(o)) + Size(Matrices(o));
    SizeIsShapeSize(o);
    SizeIsShapeSize(Scalars(o));
    SizeIsShapeSize(Matrices(o));
  }

  function SkeletonSize(s: Skeleton): nat {
    match s
    case Leaf => 1
    case Node(l, r) => 1 + SkeletonSize(l) + SkeletonSize(r)
  }

  lemma {:induction false} SizeIsShapeSize(e: Expr)
    ensures Size(e) == SkeletonSize(Shape(e))
  {
    match e
    case Product(m1, m2) =>
      SizeIsShapeSize(m1);
      SizeIsShapeSize(m2);
    case _ =>
  }

  // ---------------------------------------------------------------------------
  // isIdentity
  // ---------------------------------------------------------------------------

  /** isIdentity holds exactly when every leaf is an identity leaf: I, the
      scalar 1, or a Kronecker-delta matrix. */
  lemma {:induction false} IsIdentityLeafwise(e: Expr)
    ensures IsIdentity(e) <==> forall l :: l in Leaves(e) ==> IsIdentity(l)
  {
    match e
    case Product(m1, m2) =>
      IsIdentityLeafwise(m1);
      IsIdentityLeafwise(m2);
      assert forall l :: l in Leaves(e) <==> l in Leaves(m1) || l in Leaves(m2);
    case _ =>
  }

  /** isIdentity is sound: an expression it accepts has coefficient 1 and a
      chain made only of identity matrices. */
  lemma IsIdentitySound(e: Expr)
    requires IsIdentity(e)
    ensures Denote(e).coeff == 1.0
    ensures forall m :: m in Denote(e).chain ==> IsKroneckerDelta(m)
  {
    ProdOfOnes(ScalarLeaves(e));
  }

  /** isIdentity is conservative: times(2, 0.5) has value 1 but is not
      recognised, because products are not evaluated. */
  lemma IsIdentityConservative()
    ensures var e := Times(MakeScalar(2.0), MakeScalar(0.5));
            !IsIdentity(e) && Denote(e) == Denote(I)
  {
  }

  /** The n-by-n identity matrix. */
  function IdentityRows(n: nat): seq<seq<real>> {
    seq(n, r requires 0 <= r < n => seq(n, c requires 0 <= c < n => Delta(r, c)))
  }

  /** A matrix passes the identity test exactly when it is the n-by-n
      identity matrix for its number of rows n. */
  lemma KroneckerIsIdentityRows(rows: Grid)
    ensures IsKroneckerDelta(rows) <==> rows == IdentityRows(|rows|)
  {
    var n := |rows|;
    if IsKroneckerDelta(rows) {
      forall r | 0 <= r < n ensures rows[r] == IdentityRows(n)[r] {
        assert |rows[r]| == n;
      }
    }
    if rows == IdentityRows(n) {
      assert |rows[0]| == n;
    }
  }
}
