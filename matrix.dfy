/**
 * The imperative side of the matrix leaf: building it from the caller's
 * two-dimensional array (snapshot, then the representation checks), handing
 * out a fresh copy, and the loops behind isIdentity and toString.  The leaf
 * itself stores its contents as an immutable Grid, so a snapshot taken once
 * can never be changed through the caller's array.
 */
module Matrix {
  import opened Wrappers
  import opened MatrixExpression
  import opened Rendering

  /** The table a caller's array of rows holds. */
  ghost function Contents(a: array<array<real>>): seq<seq<real>>
    reads a, set i | 0 <= i < a.Length :: a[i]
  {
    seq(a.Length, i requires 0 <= i < a.Length reads a, set j | 0 <= j < a.Length :: a[j] => a[i][..])
  }

  /** The representation checks, in order: a row exists, row 0 is not
      empty, then every row, from row 0 on, is as long as row 0. */
  method CheckRep(rows: seq<seq<real>>) returns (v: Option<RepError>)
    ensures v == RepViolation(rows)
  {
    if |rows| == 0 {
      return Some(NoRows);
    }
    var expectedCols := |rows[0]|;
    if expectedCols == 0 {
      return Some(NoColumns);
    }
    var i := 0;
    while i < |rows|
      invariant 0 <= i <= |rows|
      invariant forall j :: 0 <= j < i ==> |rows[j]| == expectedCols
    {
      if |rows[i]| != expectedCols {
        return Some(RaggedRow(i));
      }
      i := i + 1;
    }
    return None;
  }

  /** make(array): snapshot every row of the caller's array, then check the
      representation invariant on the snapshot. */
  method Make(a: array<array<real>>) returns (r: Result<Expr, RepError>)
    ensures r == FromRows(Contents(a))
  {
    var rows: seq<seq<real>> := [];
    var i := 0;
    while i < a.Length
      invariant 0 <= i <= a.Length
      invariant rows == Contents(a)[..i]
    {
      rows := rows + [a[i][..]];
      i := i + 1;
    }
    assert rows == Contents(a);
    var violation := CheckRep(rows);
    if violation.Some? {
      return Err(violation.value);
    }
    return Ok(Matrix(rows));
  }

  /** The snapshot is independent of the caller's array: writing into the
      array after make leaves the matrix as it was built. */
  method MakeThenOverwrite(a: array<array<real>>, v: real) returns (r: Result<Expr, RepError>)
    requires a.Length > 0 && a[0].Length > 0
    modifies a[0]
    ensures r == FromRows(old(Contents(a)))
    ensures a[0][0] == v
    ensures forall k :: 1 <= k < a[0].Length ==> a[0][k] == old(a[0][k])
  {
    r := Make(a);
    a[0][0] := v;
  }

  /** getArray: a fresh array of fresh, distinct rows holding the contents. */
  method GetArray(m: Grid) returns (copy: array<array<real>>)
    ensures fresh(copy)
    ensures forall i :: 0 <= i < copy.Length ==> fresh(copy[i])
    ensures forall i, j :: 0 <= i < j < copy.Length ==> copy[i] != copy[j]
    ensures Contents(copy) == m
  {
    var placeholder := new real[0];
    copy := new array<real>[|m|](_ => placeholder);
    var i := 0;
    while i < |m|
      invariant 0 <= i <= |m|
      invariant copy.Length == |m|
      invariant forall j :: 0 <= j < i ==> fresh(copy[j]) && copy[j] != placeholder
      invariant forall j, k :: 0 <= j < k < i ==> copy[j] != copy[k]
      invariant forall j :: 0 <= j < i ==> copy[j][..] == m[j]
      invariant forall j :: i <= j < |m| ==> copy[j] == placeholder
    {
      var row := m[i];
      copy[i] := new real[|row|](k requires 0 <= k < |row| => row[k]);
      i := i + 1;
    }
  }

  /** getRows. */
  function RowCount(m: Grid): (n: nat)
    ensures n == |m| && n > 0
  {
    |m|
  }

  /** getCols: the length of row 0, which is the length of every row. */
  function ColumnCount(m: Grid): (n: nat)
    ensures n > 0
    ensures forall i :: 0 <= i < |m| ==> |m[i]| == n
  {
    |m[0]|
  }

  /** isIdentity of a matrix: square, then every entry compared with the
      Kronecker delta, row by row, stopping at the first mismatch. */
  method IsIdentityMatrix(m: Grid) returns (b: bool)
    ensures b == IsKroneckerDelta(m)
  {
    if |m| != |m[0]| {
      return false;
    }
    var row := 0;
    while row < |m|
      invariant 0 <= row <= |m|
      invariant forall r, c :: 0 <= r < row && 0 <= c < |m| ==> m[r][c] == Delta(r, c)
    {
      var col := 0;
      while col < |m[row]|
        invariant 0 <= col <= |m[row]|
        invariant forall c :: 0 <= c < col ==> m[row][c] == Delta(row, c)
      {
        var expected := if row == col then 1.0 else 0.0;
        if m[row][col] != expected {
          return false;
        }
        col := col + 1;
      }
      row := row + 1;
    }
    return true;
  }

  /** toString of a matrix, appended row by row. */
  method ToText(m: Grid, fmt: real -> string) returns (s: string)
    ensures s == MatrixText(m, fmt)
  {
    ghost var parts := RowTexts(m, fmt);
    s := "Matrix[";
    var i := 0;
    while i < |m|
      invariant 0 <= i <= |m|
      invariant s == "Matrix[" + Join(parts[..i], "; ")
    {
      assert parts[..i + 1][..i] == parts[..i];
      if i > 0 {
        s := s + "; ";
      }
      s := s + RowText(m[i], fmt);
      i := i + 1;
    }
    assert parts[..|m|] == parts;
    s := s + "]";
  }
}
