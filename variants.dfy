/**
 * The four implementing classes, one lemma each: what isIdentity, optimize,
 * scalars, matrices, toString and equals do on that variant.  Equality is
 * stated against equality of values.
 */
module Variants {
  import opened MatrixExpression
  import opened Rendering
  import opened Equality
  import opened Laws

  /** The identity leaf: always an identity, its own optimization, scalars
      and matrices, printed "I", equal to exactly the identity leaf. */
  lemma IdentityLaws(fmt: real -> string)
    ensures I.Identity?
    ensures IsIdentity(I)
    ensures Optimize(I) == I && Scalars(I) == I && Matrices(I) == I
    ensures Render(I, fmt) == "I"
    ensures forall b :: Equals(I, b) <==> b == I
  {
  }

  /** A scalar leaf: it holds the value it was made from, is an identity
      exactly when that value is 1, is its own optimization and scalars,
      has I as its matrices, prints as its number, and equals exactly the
      scalars with the same value. */
  lemma ScalarLaws(v: real, fmt: real -> string)
    ensures var s := MakeScalar(v);
      && s.value == v
      && (IsIdentity(s) <==> v == 1.0)
      && Optimize(s) == s && Scalars(s) == s && Matrices(s) == I
      && Render(s, fmt) == fmt(v)
      && forall b :: Equals(s, b) <==> b.Scalar? && b.value == v
  {
  }

  /** A matrix leaf: an identity exactly when it is the n-by-n identity
      matrix, its own optimization and matrices, I as its scalars, printed
      row by row, and equal to exactly the matrices with the same
      contents. */
  lemma MatrixLaws(rows: Grid, fmt: real -> string)
    ensures var m := Matrix(rows);
      && (IsIdentity(m) <==> rows == IdentityRows(|rows|))
      && Optimize(m) == m && Matrices(m) == m && Scalars(m) == I
      && Render(m, fmt) == "Matrix[" + Join(RowTexts(rows, fmt), "; ") + "]"
      && forall b :: Equals(m, b) <==> b.Matrix? && b.rows == rows
  {
    KroneckerIsIdentityRows(rows);
  }

  /** A product node: it keeps its operands in order, is an identity exactly
      when both operands are, distributes scalars and matrices over its
      operands, optimizes to the product of its scalars and its matrices,
      prints its operands in parentheses, and equals exactly the products of
      equal operands. */
  lemma ProductLaws(a: Expr, b: Expr, fmt: real -> string)
    ensures var p := Times(a, b);
      && p.m1 == a && p.m2 == b
      && (IsIdentity(p) <==> IsIdentity(a) && IsIdentity(b))
      && Scalars(p) == Times(Scalars(a), Scalars(b))
      && Matrices(p) == Times(Matrices(a), Matrices(b))
      && Optimize(p) == Times(Times(Scalars(a), Scalars(b)), Times(Matrices(a), Matrices(b)))
      && Render(p, fmt) == "(" + Render(a, fmt) + " * " + Render(b, fmt) + ")"
      && forall c :: Equals(p, c) <==> c.Product? && c.m1 == a && c.m2 == b
  {
  }
}
