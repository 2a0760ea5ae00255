# Matrix expressions, modelled in Dafny

The modelled system is a small immutable algebraic datatype for symbolic
matrix-product expressions. An expression is one of four variants:

- the identity `I`;
- a scalar;
- a dense matrix;
- the product of two expressions.

Four operations work on expressions. `isIdentity` is a syntactic identity
test. `scalars` keeps the scalar leaves and puts `I` in place of every matrix.
`matrices` keeps the matrix leaves and puts `I` in place of every scalar.
`optimize` turns a product into `times(scalars(), matrices())`. Every variant
also has a printer (`toString`), structural equality (`equals`) and a hash
(`hashCode`). The matrix leaf checks a representation invariant when it is
built: at least one row, at least one column, all rows of equal length. It
copies the caller's array in and out with loops.

How the model is laid out:

- `MatrixExpression` (`matrix_expression.dfy`) holds the datatype `Expr`, the
  factories and the four operations. Each operation is one function, defined
  by cases exactly as the four implementing classes define it.
  - Matrix contents are a `Grid`: a nonempty, rectangular `seq<seq<real>>`.
  - `make(double[][])` is `FromRows`. It returns the matrix or the violation
    that the representation checks report first.
- `Matrix` (`matrix.dfy`) holds the imperative side of the matrix class as
  methods over `array<array<real>>` and sequences. These are the snapshot
  constructor, `checkRep`, `getArray`, `getRows`/`getCols`, the nested-loop
  `isIdentity` and the `StringBuilder` loop of `toString`. Each method is
  proved equal to the function that specifies it.
- `Rendering` (`rendering.dfy`) is the printer. It is parameterised by the
  formatter of a double (`fmt`). `DoubleText` is a plain-decimal formatter
  that writes whole numbers as `2.0`.
- `Equality` (`equality.dfy`) holds `equals`, proved to coincide with equality
  of values. It also holds `hashCode`, with Java's 32-bit wrap-around written
  out and the hash of one double as a parameter.
- `Laws` (`laws.dfy`) holds what the interface promises. "The same value" is
  stated through `Denote`, which reads an expression as the product of its
  scalars times the ordered chain of its matrices. This is the reading in any
  algebra where scalars commute with matrices and `I` is neutral, and it is
  proved compositional over products.
- `Variants` (`variants.dfy`) has one lemma per implementing class.
- `Scenarios` (`scenarios.dfy`) gives the expected results of the unit tests
  as lemmas about concrete expressions.

Where the code and the written contracts differ, the model follows the code:

- A table whose row 0 is nonempty but a later row is empty fails the
  equal-length check (`RaggedRow`). It does not fail the "at least one
  column" check.
- The checks are Java `assert`s, so they are modelled as enabled. That is
  how the test runner executes them.
- Product dimensions are never checked.

## Model

| member | source | states |
|---|---|---|
| MatrixExpression.MakeScalar | src/main/java/matrixmultiplication/MatrixExpression.java:20-22 | make(v) is a scalar leaf holding exactly v |
| MatrixExpression.Times | src/main/java/matrixmultiplication/MatrixExpression.java:39-41 | times(m1, m2) is a product with m1 on the left and m2 on the right, and is never equal to either operand (no simplification) |
| MatrixExpression.FirstRagged | src/main/java/matrixmultiplication/Matrix.java:40-42 | the loop of the representation check finds the first row, from a given index on, whose length differs from row 0's, or reports that there is none |
| MatrixExpression.RepViolation | src/main/java/matrixmultiplication/Matrix.java:36-43 | the checks pass exactly when the table is nonempty and rectangular; no rows, then an empty row 0, then the first ragged row are reported in that order |
| MatrixExpression.FromRows | src/main/java/matrixmultiplication/MatrixExpression.java:29-31 | make(array) succeeds exactly when the table satisfies the representation invariant, and then holds exactly the table's contents; otherwise it fails with the first violation |
| MatrixExpression.Scalars | src/main/java/matrixmultiplication/MatrixExpression.java:55-59 | scalars(e) holds no matrix, has the product skeleton of e, and keeps e's scalar values in left-to-right order |
| MatrixExpression.Matrices | src/main/java/matrixmultiplication/MatrixExpression.java:61-66 | matrices(e) holds no scalar, has the product skeleton of e, and keeps e's matrices in left-to-right order |
| MatrixExpression.Optimize | src/main/java/matrixmultiplication/MatrixExpression.java:49-53 | optimize returns a product exactly for a product; a leaf comes back unchanged; a product's left operand holds no matrix and its right operand no scalar, and both the scalars and the matrices keep their order |
| MatrixExpression.Rectangular | src/main/java/matrixmultiplication/Matrix.java:36-43 | the representation invariant: at least one row, a nonempty row 0, every row as long as row 0; it has no contract of its own, and RepViolation and FromRows are stated against it |
| MatrixExpression.Delta | src/main/java/matrixmultiplication/Matrix.java:80 | the entry the identity test expects at (row, col); it has no contract of its own and is used by IsKroneckerDelta |
| MatrixExpression.IsKroneckerDelta | src/main/java/matrixmultiplication/Matrix.java:74-87 | the identity test of a matrix: square, with every entry the Kronecker delta; when it holds, every row, not only row 0, is as long as the matrix is high |
| MatrixExpression.IsIdentity | src/main/java/matrixmultiplication/Product.java:56-58 | isIdentity of any expression (Identity.java:16-18, Scalar.java:42-44, Matrix.java:74-87 for the leaves) holds exactly when every scalar in it is 1 and every matrix in it passes the identity test |
| MatrixExpression.AllOnesAppend | src/main/java/matrixmultiplication/Product.java:57 | helper of IsIdentity: a concatenation holds only ones exactly when both parts do |
| MatrixExpression.NoScalarLeaves | src/main/java/matrixmultiplication/MatrixExpression.java:61-66 | helper of Optimize: an expression lists no scalar value exactly when it holds no scalar leaf |
| MatrixExpression.NoMatrixLeaves | src/main/java/matrixmultiplication/MatrixExpression.java:55-59 | helper of Optimize: an expression lists no matrix exactly when it holds no matrix leaf |
| Matrix.CheckRep | src/main/java/matrixmultiplication/Matrix.java:36-43 | the checking loop reports exactly the violation the representation checks define |
| Matrix.Make | src/main/java/matrixmultiplication/Matrix.java:24-31 | the copying constructor, run on the caller's array, gives exactly make of the array's contents |
| Matrix.MakeThenOverwrite | src/main/java/matrixmultiplication/Matrix.java:24-30 | writing into the caller's array after construction leaves the built matrix as the array was before the write (defensive copy) |
| Matrix.GetArray | src/main/java/matrixmultiplication/Matrix.java:49-55 | getArray returns a fresh array of fresh, pairwise distinct rows whose contents are the matrix |
| Matrix.RowCount | src/main/java/matrixmultiplication/Matrix.java:61-63 | getRows is the number of rows, which is positive |
| Matrix.ColumnCount | src/main/java/matrixmultiplication/Matrix.java:69-71 | getCols is positive and is the length of every row, not only row 0 |
| Matrix.IsIdentityMatrix | src/main/java/matrixmultiplication/Matrix.java:74-87 | the nested loops with early return answer true exactly when the matrix is square and every entry is the Kronecker delta |
| Matrix.ToText | src/main/java/matrixmultiplication/Matrix.java:105-114 | the string-builder loop produces "Matrix[", the printed rows separated by "; ", then "]" |
| Rendering.Join | src/main/java/matrixmultiplication/Matrix.java:108-111 | the separator loop of the string builder; it has no contract of its own, and JoinEnds and JoinNoParens state its properties |
| Rendering.JoinEnds | src/main/java/matrixmultiplication/Matrix.java:108-111 | a joined text opens with the first part and closes with the last |
| Rendering.RowText | src/main/java/matrixmultiplication/Matrix.java:110 | Arrays.toString of one row; it has no contract of its own, and RowTextNoParens and PairText state its properties |
| Rendering.MatrixText | src/main/java/matrixmultiplication/Matrix.java:105-114 | toString of a matrix; it has no contract of its own, and Matrix.ToText is proved equal to it |
| Rendering.Render | src/main/java/matrixmultiplication/Product.java:76-78 | toString of the four variants (Identity.java:36-38, Scalar.java:62-64, Matrix.java:105-114 for the leaves) writes at least the five characters "(", " * " and ")" per product |
| Rendering.DigitChar | src/main/java/matrixmultiplication/Scalar.java:63 | helper of DoubleText: the character of decimal digit d |
| Rendering.NatText | src/main/java/matrixmultiplication/Scalar.java:63 | helper of DoubleText: the decimal digits of a natural number, nonempty and without a leading zero |
| Rendering.FractionDigits | src/main/java/matrixmultiplication/Scalar.java:63 | helper of DoubleText: decimal digits only, at most as many as asked for |
| Rendering.DoubleText | src/main/java/matrixmultiplication/Scalar.java:62-64 | String.valueOf of a double, in plain decimal notation: nonempty, opening with "-" exactly for a negative number, holding a point and never a parenthesis |
| Rendering.DoubleTextParens | src/main/java/matrixmultiplication/Product.java:76-78 | with DoubleText as the number formatter, the printed form holds exactly one "(" and one ")" per product |
| Rendering.MatrixTextNoParens | src/main/java/matrixmultiplication/Matrix.java:105-114 | a printed matrix holds no parenthesis when its printed numbers hold none |
| Rendering.RowTextNoParens | src/main/java/matrixmultiplication/Matrix.java:110 | a printed row holds no parenthesis when its printed numbers hold none |
| Rendering.JoinNoParens | src/main/java/matrixmultiplication/Matrix.java:108-111 | joining parenthesis-free parts with a parenthesis-free separator gives a parenthesis-free string |
| Rendering.LeafNoParens | src/main/java/matrixmultiplication/Identity.java:36-38 | a printed leaf ("I", a number or a matrix) holds no parenthesis |
| Rendering.ProductParens | src/main/java/matrixmultiplication/Product.java:76-78 | a printed product holds one "(" and one ")" more than its two printed operands together |
| Rendering.ParenthesizedCount | src/main/java/matrixmultiplication/Product.java:77 | helper of ProductParens: "(a * b)" holds one "(" and one ")" more than a and b together |
| Rendering.NoParensCount | src/main/java/matrixmultiplication/Product.java:77 | helper of LeafNoParens: a string without parentheses counts zero of each |
| Rendering.RenderParens | src/main/java/matrixmultiplication/Product.java:76-78 | the printed form holds exactly one "(" and one ")" per product node, when the printed numbers hold no parenthesis |
| Rendering.RenderOpensWithParen | src/main/java/matrixmultiplication/Product.java:76-78 | a printed expression is nonempty and opens with "(" exactly when it is a product |
| Equality.DeepEquals | src/main/java/matrixmultiplication/Matrix.java:120 | Arrays.deepEquals: same row count, same row lengths, same entries; it has no contract of its own, and DeepEqualsIsEquality states what it means |
| Equality.DeepEqualsIsEquality | src/main/java/matrixmultiplication/Matrix.java:117-121 | deepEquals of two tables (same row count, same row lengths, same entries) is equality of the tables |
| Equality.Equals | src/main/java/matrixmultiplication/Product.java:80-85 | equals, defined variant by variant (Identity.java:41-43, Scalar.java:67-72, Matrix.java:117-121), holds exactly between equal expressions |
| Equality.ProductNeverEqualsOperand | src/main/java/matrixmultiplication/MatrixExpression.java:39-41 | times(a, b) equals neither a nor b, e.g. times(I, x) is not x |
| Equality.Int32 | src/main/java/matrixmultiplication/Product.java:89 | int arithmetic wraps into the 32-bit range and stays congruent to the exact result modulo 2^32 |
| Equality.ArrayHash | src/main/java/matrixmultiplication/Matrix.java:124-126 | the 31-based fold of the array hashes always lies in the 32-bit int range |
| Equality.RowHash | src/main/java/matrixmultiplication/Matrix.java:125 | the hash of one row always lies in the 32-bit int range |
| Equality.HashCode | src/main/java/matrixmultiplication/Product.java:88-90 | hashCode of the four variants (Identity.java:46-48, Scalar.java:74-76, Matrix.java:124-126 for the leaves) always lies in the 32-bit int range |
| Equality.HashConsistentWithEquals | src/main/java/matrixmultiplication/Product.java:87-90 | equal expressions have equal hash codes, whatever the hash of a double is |
| Laws.ProdAppend | src/main/java/matrixmultiplication/MatrixExpression.java:55-59 | helper of ProductValue: the product of a concatenation of scalar lists is the product of the two products |
| Laws.LeafValues | src/main/java/matrixmultiplication/MatrixExpression.java:3-9 | I has value 1 with no matrix, a scalar is its own coefficient, a matrix is a chain of itself with coefficient 1 |
| Laws.ProductValue | src/main/java/matrixmultiplication/Product.java:13 | the value of a product is the product of the operands' values: coefficients multiply, chains concatenate in order |
| Laws.ProdOfOnes | src/main/java/matrixmultiplication/Scalar.java:42-44 | helper of IsIdentitySound: a product of scalars that are all 1 is 1 |
| Laws.ScalarsLeafwise | src/main/java/matrixmultiplication/Product.java:66-68 | scalars keeps the leaves one for one, with I in place of every matrix leaf |
| Laws.ScalarsValue | src/main/java/matrixmultiplication/MatrixExpression.java:55-59 | scalars(e) has e's scalar coefficient and no matrix: it is the product of all the scalars |
| Laws.ScalarsFixpoint | src/main/java/matrixmultiplication/MatrixExpression.java:55-59 | scalars leaves an expression unchanged exactly when it holds no matrix |
| Laws.ScalarsIdempotent | src/main/java/matrixmultiplication/MatrixExpression.java:55-59 | scalars(scalars(e)) == scalars(e) |
| Laws.MatricesLeafwise | src/main/java/matrixmultiplication/Product.java:71-73 | matrices keeps the leaves one for one, with I in place of every scalar leaf |
| Laws.MatricesValue | src/main/java/matrixmultiplication/MatrixExpression.java:61-66 | matrices(e) has coefficient 1 and e's chain of matrices: it is the product of all the matrices in order |
| Laws.MatricesFixpoint | src/main/java/matrixmultiplication/MatrixExpression.java:61-66 | matrices leaves an expression unchanged exactly when it holds no scalar |
| Laws.MatricesIdempotent | src/main/java/matrixmultiplication/MatrixExpression.java:61-66 | matrices(matrices(e)) == matrices(e) |
| Laws.ScalarsMatricesCommute | src/main/java/matrixmultiplication/MatrixExpression.java:55-66 | scalars and matrices commute; together they leave the bare skeleton with I at every leaf, which is an identity |
| Laws.FactoringPreservesValue | src/main/java/matrixmultiplication/MatrixExpression.java:61-64 | times(scalars(), matrices()) has the value of the expression itself |
| Laws.OptimizePreservesValue | src/main/java/matrixmultiplication/MatrixExpression.java:49-53 | optimize returns an expression with the same value |
| Laws.OptimizeShape | src/main/java/matrixmultiplication/Product.java:61-63 | optimize of a product is the product of its scalars and its matrices, whose skeleton is two copies of the original skeleton; a leaf is returned as it is |
| Laws.OptimizeNotIdempotent | src/main/java/matrixmultiplication/Product.java:61-63 | on a product, optimizing again always gives a different, strictly larger expression |
| Laws.SizeIsShapeSize | src/main/java/matrixmultiplication/Product.java:61-63 | helper of OptimizeNotIdempotent: the node count of an expression is the node count of its skeleton |
| Laws.IsIdentityLeafwise | src/main/java/matrixmultiplication/Product.java:56-58 | isIdentity holds exactly when every leaf is an identity leaf |
| Laws.IsIdentitySound | src/main/java/matrixmultiplication/MatrixExpression.java:43-47 | an expression isIdentity accepts has coefficient 1 and only identity matrices in its chain |
| Laws.IsIdentityConservative | src/main/java/matrixmultiplication/Product.java:56-58 | times(2, 0.5) has the value of I but is not recognised as an identity |
| Laws.KroneckerIsIdentityRows | src/main/java/matrixmultiplication/Matrix.java:74-87 | a matrix passes the identity test exactly when it is the n-by-n identity matrix |
| Variants.IdentityLaws | src/main/java/matrixmultiplication/Identity.java:15-43 | I is the identity variant; it is an identity; it is its own optimize, scalars and matrices; it prints "I"; it equals exactly I |
| Variants.ScalarLaws | src/main/java/matrixmultiplication/Scalar.java:21-71 | a scalar holds the value it was made from; it is an identity exactly when the value is 1; it is its own optimize and scalars; its matrices is I; it prints as its number; it equals exactly the scalars with the same value |
| Variants.MatrixLaws | src/main/java/matrixmultiplication/Matrix.java:73-121 | a matrix is an identity exactly when it is the n-by-n identity; it is its own optimize and matrices; its scalars is I; it prints row by row; it equals exactly the matrices with the same contents |
| Variants.ProductLaws | src/main/java/matrixmultiplication/Product.java:23-85 | a product keeps its operands in order; it is an identity exactly when both operands are; scalars and matrices distribute over it; it optimizes to the product of its scalars and matrices; it prints in parentheses; it equals exactly the products of equal operands |
| Scenarios.XYBuiltByMake | src/test/java/matrixmultiplication/MatrixExpressionTest.java:9-10 | make on the suite's two 2-by-2 tables succeeds and gives exactly the matrices X and Y |
| Scenarios.JoinTwo | src/main/java/matrixmultiplication/Matrix.java:108-111 | two printed parts joined by a separator read "p0", separator, "p1" |
| Scenarios.PairText | src/main/java/matrixmultiplication/Matrix.java:110 | a two-entry row prints as "[x, y]" |
| Scenarios.TwoRowText | src/main/java/matrixmultiplication/Matrix.java:105-114 | a two-row matrix prints as "Matrix[r0; r1]" |
| Scenarios.SmallWholeNumbersPrinted | src/main/java/matrixmultiplication/Scalar.java:62-64 | the whole numbers 1 to 8 print as "1.0" to "8.0" |
| Scenarios.XPrinted | src/test/java/matrixmultiplication/MatrixExpressionTest.java:9 | the test matrix X prints as Matrix[[1.0, 2.0]; [3.0, 4.0]] |
| Scenarios.YPrinted | src/test/java/matrixmultiplication/MatrixExpressionTest.java:10 | the test matrix Y prints as Matrix[[5.0, 6.0]; [7.0, 8.0]] |
| Scenarios.ScalarsPrinted | src/main/java/matrixmultiplication/Scalar.java:62-64 | the scalars 2 and 3 print as "2.0" and "3.0" |
| Scenarios.OptimizeNoScalars | src/test/java/matrixmultiplication/MatrixExpressionTest.java:13-18 | optimize leaves the matrix X equal to itself |
| Scenarios.OptimizeOneScalarLeft | src/test/java/matrixmultiplication/MatrixExpressionTest.java:21-34 | optimize(2 * X) equals times(scalars, matrices) and prints as ((2.0 * I) * (I * X)) |
| Scenarios.OptimizeTwoScalarsAssociativityRight | src/test/java/matrixmultiplication/MatrixExpressionTest.java:37-64 | optimize(2 * (X * 3)) prints as ((2.0 * (I * 3.0)) * (I * (X * I))) |
| Scenarios.OptimizeTwoScalarsAssociativityLeft | src/test/java/matrixmultiplication/MatrixExpressionTest.java:67-88 | optimize((2 * X) * 3) prints as (((2.0 * I) * 3.0) * ((I * X) * I)) |
| Scenarios.OptimizeTwoScalarsComplex | src/test/java/matrixmultiplication/MatrixExpressionTest.java:91-112 | optimize((X * 2) * (3 * Y)) prints as (((I * 2.0) * (3.0 * I)) * ((X * I) * (I * Y))) |
| Scenarios.ScalarTimesMatrix | src/main/java/matrixmultiplication/Product.java:61-78 | for any scalar a and matrix x, optimize(a * x) prints as ((a * I) * (I * x)) |
| Scenarios.RightNested | src/main/java/matrixmultiplication/Product.java:61-78 | for any scalars a, b and matrix x, optimize(a * (x * b)) prints as ((a * (I * b)) * (I * (x * I))) |
| Scenarios.LeftNested | src/main/java/matrixmultiplication/Product.java:61-78 | for any scalars a, b and matrix x, optimize((a * x) * b) prints as (((a * I) * b) * ((I * x) * I)) |
| Scenarios.TwoPairs | src/main/java/matrixmultiplication/Product.java:61-78 | for any matrices x, y and scalars a, b, optimize((x * a) * (b * y)) prints as (((I * a) * (b * I)) * ((x * I) * (I * y))) |
| Scenarios.IdentityScenarios | src/main/java/matrixmultiplication/Product.java:56-58 | the 2-by-2 identity and I * I are identities; diag(1, 2) and 2 * 0.5 are not |

## Left out

- IEEE-754 doubles. Scalars and entries are exact reals, so NaN, infinities and signed zero are not modelled. Java compares doubles with `==` in `Scalar.equals` and in `isIdentity`, and by bit pattern in `Arrays.deepEquals`.
- Equality.HashConsistentWithEquals: holds for reals only. Over IEEE doubles, `Scalar.equals` (`==`) treats `0.0` and `-0.0` as equal, but `Double.hashCode` gives them different hashes, and a NaN scalar does not equal itself.
- Java's double-to-string conversion (`String.valueOf`, `Arrays.toString`) is not modelled. The printer takes the number formatter as a parameter. `DoubleText` writes plain decimal notation only. Java switches to scientific notation below 10^-3 and from 10^7 up, and writes shortest round-trip digits rather than an exact expansion cut at 17 digits.
- The hash of one double (`Double.hashCode`) is a parameter of `HashCode`. Only its combination is modelled: 31-based folds, `deepHashCode`, and the `* 31 +` of a product with 32-bit wrap-around.
- Object identity: the shared `I` instance versus a new `Identity` object, and `this` versus a copy. Expressions are values, and `equals` cannot tell the difference.
- Null arrays, null rows and null operands. The model has no null. Product's null-operand assertions therefore cannot fail, and make on a table with a null row is not modelled.
- Disabled assertions. With assertions off, Java's constructor accepts ragged or empty tables (and throws an index exception on zero rows). The model treats the checks as always on.
- The matrix leaf stores an immutable sequence, not a private `double[][]` field. The defensive copies are modelled by `Matrix.Make` and `Matrix.GetArray` on arrays. Because the stored contents cannot change, the matrix itself cannot be aliased.
- Dimension compatibility of products. The source mentions it in a comment but never checks it, and the model does not either.
- The test harness itself (JUnit): only its expected values appear, as lemmas. The expected strings are spelled with `Pair`, `TwoRows` and `Paren` in place of flat literals.
