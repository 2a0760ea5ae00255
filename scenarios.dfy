/**
 * The end-to-end scenarios of the test suite, as concrete instances of the
 * model: the printed form of optimize on the suite's expressions, and the
 * identity tests.
 */
module Scenarios {
  import opened MatrixExpression
  import opened Rendering
  import opened Equality
  import opened Wrappers

  const X: Expr := Matrix([[1.0, 2.0], [3.0, 4.0]])
  const Y: Expr := Matrix([[5.0, 6.0], [7.0, 8.0]])
  const A: Expr := MakeScalar(2.0)
  const B: Expr := MakeScalar(3.0)

  /** Matrix[[1.0, 2.0]; [3.0, 4.0]] and Matrix[[5.0, 6.0]; [7.0, 8.0]]. */
  const XText: string := TwoRows(Pair("1.0", "2.0"), Pair("3.0", "4.0"))
  const YText: string := TwoRows(Pair("5.0", "6.0"), Pair("7.0", "8.0"))

  /** The suite builds X and Y with make from two-by-two arrays; both are
      well formed, so make returns exactly these matrices. */
  lemma XYBuiltByMake()
    ensures FromRows([[1.0, 2.0], [3.0, 4.0]]) == Ok(X)
    ensures FromRows([[5.0, 6.0], [7.0, 8.0]]) == Ok(Y)
  {
  }

  /** "[x, y]": how a row of two printed numbers reads. */
  function Pair(x: string, y: string): string {
    "[" + x + ", " + y + "]"
  }

  /** "Matrix[r0; r1]": how a matrix of two printed rows reads. */
  function TwoRows(r0: string, r1: string): string {
    "Matrix[" + r0 + "; " + r1 + "]"
  }

  /** Two parts joined by a separator. */
  lemma JoinTwo(parts: seq<string>, sep: string)
    requires |parts| == 2
    ensures Join(parts, sep) == parts[0] + sep + parts[1]
  {
    assert parts[..1] == [parts[0]];
  }

  /** A two-entry row prints as "[x, y]". */
  lemma PairText(x: real, y: real, tx: string, ty: string)
    requires DoubleText(x) == tx && DoubleText(y) == ty
    ensures RowText([x, y], DoubleText) == Pair(tx, ty)
  {
    var parts := NumberTexts([x, y], DoubleText);
    assert parts[0] == tx && parts[1] == ty;
    JoinTwo(parts, ", ");
  }

  /** A two-row matrix prints as "Matrix[r0; r1]". */
  lemma TwoRowText(m: Grid, t0: string, t1: string)
    requires |m| == 2
    requires RowText(m[0], DoubleText) == t0 && RowText(m[1], DoubleText) == t1
    ensures MatrixText(m, DoubleText) == TwoRows(t0, t1)
  {
    var parts := RowTexts(m, DoubleText);
    assert parts[0] == t0 && parts[1] == t1;
    JoinTwo(parts, "; ");
  }

  /** "(a * b)": how a product of two printed operands reads. */
  function Paren(a: string, b: string): string {
    "(" + a + " * " + b + ")"
  }

  /** The numbers of the suite's matrices print as the platform prints them. */
  lemma SmallWholeNumbersPrinted()
    ensures DoubleText(1.0) == "1.0" && DoubleText(2.0) == "2.0"
    ensures DoubleText(3.0) == "3.0" && DoubleText(4.0) == "4.0"
    ensures DoubleText(5.0) == "5.0" && DoubleText(6.0) == "6.0"
    ensures DoubleText(7.0) == "7.0" && DoubleText(8.0) == "8.0"
  {
  }

  lemma XPrinted()
    ensures Render(X, DoubleText) == XText
  {
    SmallWholeNumbersPrinted();
    PairText(1.0, 2.0, "1.0", "2.0");
    PairText(3.0, 4.0, "3.0", "4.0");
    TwoRowText(X.rows, Pair("1.0", "2.0"), Pair("3.0", "4.0"));
  }

  lemma YPrinted()
    ensures Render(Y, DoubleText) == YText
  {
    SmallWholeNumbersPrinted();
    PairText(5.0, 6.0, "5.0", "6.0");
    PairText(7.0, 8.0, "7.0", "8.0");
    TwoRowText(Y.rows, Pair("5.0", "6.0"), Pair("7.0", "8.0"));
  }

  lemma ScalarsPrinted()
    ensures Render(A, DoubleText) == "2.0" && Render(B, DoubleText) == "3.0"
  {
  }

  /** X => X: optimize leaves a matrix as it is. */
  lemma OptimizeNoScalars()
    ensures Equals(X, Optimize(X))
    ensures Render(Optimize(X), DoubleText) == "Matrix[[1.0, 2.0]; [3.0, 4.0]]"
  {
    XPrinted();
  }

  /** aX => ((2.0 * I) * (I * X)), which is times(scalars, matrices). */
  lemma OptimizeOneScalarLeft()
    ensures var e := Times(A, X);
            && Equals(Times(Scalars(e), Matrices(e)), Optimize(e))
            && Render(Optimize(e), DoubleText) == Paren(Paren("2.0", "I"), Paren("I", XText))
  {
    ScalarTimesMatrix(A, X, DoubleText);
    ScalarsPrinted();
    XPrinted();
  }

  /** a(Xb) => ((2.0 * (I * 3.0)) * (I * (X * I))). */
  lemma OptimizeTwoScalarsAssociativityRight()
    ensures Render(Optimize(Times(A, Times(X, B))), DoubleText)
         == Paren(Paren("2.0", Paren("I", "3.0")), Paren("I", Paren(XText, "I")))
  {
    RightNested(A, X, B, DoubleText);
    ScalarsPrinted();
    XPrinted();
  }

  /** (aX)b => (((2.0 * I) * 3.0) * ((I * X) * I)). */
  lemma OptimizeTwoScalarsAssociativityLeft()
    ensures Render(Optimize(Times(Times(A, X), B)), DoubleText)
         == Paren(Paren(Paren("2.0", "I"), "3.0"), Paren(Paren("I", XText), "I"))
  {
    LeftNested(A, X, B, DoubleText);
    ScalarsPrinted();
    XPrinted();
  }

  /** (Xa)(bY) => (((I * 2.0) * (3.0 * I)) * ((X * I) * (I * Y))). */
  lemma OptimizeTwoScalarsComplex()
    ensures Render(Optimize(Times(Times(X, A), Times(B, Y))), DoubleText)
         == Paren(Paren(Paren("I", "2.0"), Paren("3.0", "I")),
                  Paren(Paren(XText, "I"), Paren("I", YText)))
  {
    TwoPairs(X, A, B, Y, DoubleText);
    ScalarsPrinted();
    XPrinted();
    YPrinted();
  }

  // The same four shapes for any scalars a, b and matrices x, y.

  lemma ScalarTimesMatrix(a: Expr, x: Expr, fmt: real -> string)
    requires a.Scalar? && x.Matrix?
    ensures Render(Optimize(Times(a, x)), fmt)
         == Paren(Paren(Render(a, fmt), "I"), Paren("I", Render(x, fmt)))
  {
    var e := Times(a, x);
    assert Scalars(e) == Times(a, I);
    assert Matrices(e) == Times(I, x);
    assert Render(Scalars(e), fmt) == Paren(Render(a, fmt), "I");
    assert Render(Matrices(e), fmt) == Paren("I", Render(x, fmt));
  }

  lemma RightNested(a: Expr, x: Expr, b: Expr, fmt: real -> string)
    requires a.Scalar? && x.Matrix? && b.Scalar?
    ensures Render(Optimize(Times(a, Times(x, b))), fmt)
         == Paren(Paren(Render(a, fmt), Paren("I", Render(b, fmt))),
                  Paren("I", Paren(Render(x, fmt), "I")))
  {
    var e := Times(a, Times(x, b));
    assert Scalars(Times(x, b)) == Times(I, b);
    assert Matrices(Times(x, b)) == Times(x, I);
    assert Scalars(e) == Times(a, Times(I, b));
    assert Matrices(e) == Times(I, Times(x, I));
    assert Render(Times(I, b), fmt) == Paren("I", Render(b, fmt));
    assert Render(Times(x, I), fmt) == Paren(Render(x, fmt), "I");
    assert Render(Scalars(e), fmt) == Paren(Render(a, fmt), Paren("I", Render(b, fmt)));
    assert Render(Matrices(e), fmt) == Paren("I", Paren(Render(x, fmt), "I"));
  }

  lemma LeftNested(a: Expr, x: Expr, b: Expr, fmt: real -> string)
    requires a.Scalar? && x.Matrix? && b.Scalar?
    ensures Render(Optimize(Times(Times(a, x), b)), fmt)
         == Paren(Paren(Paren(Render(a, fmt), "I"), Render(b, fmt)),
                  Paren(Paren("I", Render(x, fmt)), "I"))
  {
    var e := Times(Times(a, x), b);
    assert Scalars(Times(a, x)) == Times(a, I);
    assert Matrices(Times(a, x)) == Times(I, x);
    assert Scalars(e) == Times(Times(a, I), b);
    assert Matrices(e) == Times(Times(I, x), I);
    assert Render(Times(a, I), fmt) == Paren(Render(a, fmt), "I");
    assert Render(Times(I, x), fmt) == Paren("I", Render(x, fmt));
    assert Render(Scalars(e), fmt) == Paren(Paren(Render(a, fmt), "I"), Render(b, fmt));
    assert Render(Matrices(e), fmt) == Paren(Paren("I", Render(x, fmt)), "I");
  }

  lemma TwoPairs(x: Expr, a: Expr, b: Expr, y: Expr, fmt: real -> string)
    requires x.Matrix? && a.Scalar? && b.Scalar? && y.Matrix?
    ensures Render(Optimize(Times(Times(x, a), Times(b, y))), fmt)
         == Paren(Paren(Paren("I", Render(a, fmt)), Paren(Render(b, fmt), "I")),
                  Paren(Paren(Render(x, fmt), "I"), Paren("I", Render(y, fmt))))
  {
    var e := Times(Times(x, a), Times(b, y));
    assert Scalars(Times(x, a)) == Times(I, a);
    assert Scalars(Times(b, y)) == Times(b, I);
    assert Matrices(Times(x, a)) == Times(x, I);
    assert Matrices(Times(b, y)) == Times(I, y);
    assert Scalars(e) == Times(Times(I, a), Times(b, I));
    assert Matrices(e) == Times(Times(x, I), Times(I, y));
    assert Render(Times(I, a), fmt) == Paren("I", Render(a, fmt));
    assert Render(Times(b, I), fmt) == Paren(Render(b, fmt), "I");
    assert Render(Times(x, I), fmt) == Paren(Render(x, fmt), "I");
    assert Render(Times(I, y), fmt) == Paren("I", Render(y, fmt));
    assert Render(Scalars(e), fmt)
        == Paren(Paren("I", Render(a, fmt)), Paren(Render(b, fmt), "I"));
    assert Render(Matrices(e), fmt)
        == Paren(Paren(Render(x, fmt), "I"), Paren("I", Render(y, fmt)));
  }

  /** The identity tests: the 2-by-2 identity passes, a diagonal matrix with a
      2 does not, I * I does, and 2 * 0.5 does not. */
  lemma IdentityScenarios()
    ensures IsIdentity(Matrix([[1.0, 0.0], [0.0, 1.0]]))
    ensures !IsIdentity(Matrix([[1.0, 0.0], [0.0, 2.0]]))
    ensures IsIdentity(Times(I, I))
    ensures !IsIdentity(Times(MakeScalar(2.0), MakeScalar(0.5)))
  {
    var bad: Grid := [[1.0, 0.0], [0.0, 2.0]];
    assert bad[1][1] != Delta(1, 1);
  }
}
