/**
 * equals and hashCode of the four variants.  Equality is tag-sensitive and
 * structural; hashing follows the platform's 31-based combination with 32-bit
 * wrap-around, the hash of one double being a parameter.
 */
module Equality {
  import opened MatrixExpression

  /** Arrays.deepEquals on two tables: the same number of rows and, row by
      row, the same length and the same entries. */
  predicate DeepEquals(r: seq<seq<real>>, s: seq<seq<real>>) {
    && |r| == |s|
    && forall i :: 0 <= i < |r| ==>
         && |r[i]| == |s[i]|
         && forall j :: 0 <= j < |r[i]| ==> r[i][j] == s[i][j]
  }

  /** equals: Identity equals every Identity; scalars compare values,
      matrices compare contents, products compare both operands; no two
      different variants are ever equal.  So equals coincides with equality
      of values. */
  predicate Equals(a: Expr, b: Expr)
    ensures Equals(a, b) <==> a == b
  {
    match a
    case Identity => b.Identity?
    case Scalar(v) => b.Scalar? && v == b.value
    case Matrix(rows) =>
      if b.Matrix? then DeepEqualsIsEquality(rows, b.rows); DeepEquals(rows, b.rows) else false
    case Product(m1, m2) => b.Product? && Equals(m1, b.m1) && Equals(m2, b.m2)
  }

  /** Arrays.deepEquals is equality of the two tables. */
  lemma DeepEqualsIsEquality(r: seq<seq<real>>, s: seq<seq<real>>)
    ensures DeepEquals(r, s) <==> r == s
  {
    if DeepEquals(r, s) {
      forall i | 0 <= i < |r| ensures r[i] == s[i] {
        assert |r[i]| == |s[i]|;
      }
    }
  }

  /** times never simplifies: a product is never equal to one of its operands,
      e.g. times(I, x) differs from x. */
  lemma ProductNeverEqualsOperand(a: Expr, b: Expr)
    ensures !Equals(Times(a, b), a) && !Equals(Times(a, b), b)
  {
  }

  // ---------------------------------------------------------------------------
  // Hashing
  // ---------------------------------------------------------------------------

  const TWO_TO_31: int := 0x8000_0000
  const TWO_TO_32: int := 0x1_0000_0000

  /** Two's-complement 32-bit wrap-around of int arithmetic. */
  function Int32(x: int): (r: int)
    ensures -TWO_TO_31 <= r < TWO_TO_31
    ensures (r - x) % TWO_TO_32 == 0
  {
    (x + TWO_TO_31) % TWO_TO_32 - TWO_TO_31
  }

  /** The 31-based hash of a sequence of element hashes, as the platform's
      array hashes compute it: start at 1, then result := 31 * result + h. */
  function ArrayHash(hs: seq<int>): (r: int)
    ensures -TWO_TO_31 <= r < TWO_TO_31
  {
    if |hs| == 0 then 1
    else Int32(31 * ArrayHash(hs[..|hs| - 1]) + hs[|hs| - 1])
  }

  /** Arrays.hashCode of one row, given the hash of a double. */
  function RowHash(row: seq<real>, doubleHash: real -> int): (r: int)
    ensures -TWO_TO_31 <= r < TWO_TO_31
  {
    ArrayHash(seq(|row|, i requires 0 <= i < |row| => Int32(doubleHash(row[i]))))
  }

  /** hashCode of the four variants. */
  function HashCode(e: Expr, doubleHash: real -> int): (r: int)
    ensures -TWO_TO_31 <= r < TWO_TO_31
  {
    match e
    case Identity => 1
    case Scalar(v) => Int32(doubleHash(v))
    case Matrix(rows) =>
      ArrayHash(seq(|rows|, i requires 0 <= i < |rows| => RowHash(rows[i], doubleHash)))
    case Product(m1, m2) =>
      Int32(HashCode(m1, doubleHash) * 31 + HashCode(m2, doubleHash))
  }

  /** Equal expressions hash equally, whatever the hash of a double. */
  lemma HashConsistentWithEquals(a: Expr, b: Expr, doubleHash: real -> int)
    requires Equals(a, b)
    ensures HashCode(a, doubleHash) == HashCode(b, doubleHash)
  {
  }
}
