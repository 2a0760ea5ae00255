/**
 * The printer (toString of the four variants).  How a double is written is
 * the platform's business, so the printer takes the number formatter as a
 * parameter; DoubleText is one formatter that writes plain decimal notation
 * the way the platform does for moderate values.
 */
module Rendering {
  import opened MatrixExpression

  /** The parts in order, separated by `sep`, built left to right as a
      string builder appends them: the text opens with the first part and
      closes with the last. */
  function Join(parts: seq<string>, sep: string): (r: string)
  {
    if |parts| == 0 then ""
    else if |parts| == 1 then parts[0]
    else Join(parts[..|parts| - 1], sep) + sep + parts[|parts| - 1]
  }

  /** One row of a matrix, as the platform's array printer writes it:
      "[v0, v1, ..., vk]". */
  function RowText(row: seq<real>, fmt: real -> string): (r: string)
  {
    "[" + Join(NumberTexts(row, fmt), ", ") + "]"
  }

  /** The rendered entries of a row, in order. */
  function NumberTexts(row: seq<real>, fmt: real -> string): seq<string> {
    seq(|row|, i requires 0 <= i < |row| => fmt(row[i]))
  }

  /** The rendered rows of a matrix, in order. */
  function RowTexts(rows: seq<seq<real>>, fmt: real -> string): seq<string> {
    seq(|rows|, i requires 0 <= i < |rows| => RowText(rows[i], fmt))
  }

  /** "Matrix[" then the rows separated by "; " then "]". */
  function MatrixText(rows: seq<seq<real>>, fmt: real -> string): (r: string)
  {
    "Matrix[" + Join(RowTexts(rows, fmt), "; ") + "]"
  }

  /** toString of an expression. */
  function Render(e: Expr, fmt: real -> string): (r: string)
    ensures |r| >= 5 * ProductCount(e)
  {
    match e
    case Identity => "I"
    case Scalar(v) => fmt(v)
    case Matrix(rows) => MatrixText(rows, fmt)
    case Product(m1, m2) =>
      "(" + Render(m1, fmt) + " * " + Render(m2, fmt) + ")"
  }

  // ---------------------------------------------------------------------------
  // Structure of the printed form
  // ---------------------------------------------------------------------------

  predicate NoParens(s: string) {
    '(' !in s && ')' !in s
  }

  /** The number of product nodes of an expression. */
  function ProductCount(e: Expr): nat {
    match e
    case Product(m1, m2) => 1 + ProductCount(m1) + ProductCount(m2)
    case _ => 0
  }

  /** A joined text opens with the first part and closes with the last. */
  lemma {:induction false} JoinEnds(parts: seq<string>, sep: string)
    requires |parts| > 0
    ensures parts[0] <= Join(parts, sep)
    ensures var r, last := Join(parts, sep), parts[|parts| - 1];
      |last| <= |r| && r[|r| - |last|..] == last
  {
    if |parts| > 1 {
      var init := parts[..|parts| - 1];
      JoinEnds(init, sep);
      assert init[0] == parts[0];
    }
  }

  lemma {:induction false} JoinNoParens(parts: seq<string>, sep: string)
    requires forall i :: 0 <= i < |parts| ==> NoParens(parts[i])
    requires NoParens(sep)
    ensures NoParens(Join(parts, sep))
  {
    if |parts| > 1 {
      JoinNoParens(parts[..|parts| - 1], sep);
    }
  }

  /** A matrix prints without parentheses when its numbers do. */
  lemma MatrixTextNoParens(rows: seq<seq<real>>, fmt: real -> string)
    requires forall x :: NoParens(fmt(x))
    ensures NoParens(MatrixText(rows, fmt))
  {
    forall i | 0 <= i < |rows|
      ensures NoParens(RowTexts(rows, fmt)[i])
    {
      RowTextNoParens(rows[i], fmt);
    }
    JoinNoParens(RowTexts(rows, fmt), "; ");
  }

  lemma RowTextNoParens(row: seq<real>, fmt: real -> string)
    requires forall x :: NoParens(fmt(x))
    ensures NoParens(RowText(row, fmt))
  {
    var parts := NumberTexts(row, fmt);
    forall k | 0 <= k < |parts|
      ensures NoParens(parts[k])
    {
      var entry := row[k];
      assert NoParens(fmt(entry));
    }
    JoinNoParens(parts, ", ");
  }

  /** Every product contributes exactly one "(" and one ")" to the printed
      form, and nothing else does (when numbers print without parentheses). */
  lemma {:induction false} RenderParens(e: Expr, fmt: real -> string)
    requires forall x :: NoParens(fmt(x))
    ensures multiset(Render(e, fmt))['('] == ProductCount(e)
    ensures multiset(Render(e, fmt))[')'] == ProductCount(e)
  {
    if e.Product? {
      RenderParens(e.m1, fmt);
      RenderParens(e.m2, fmt);
      ProductParens(e.m1, e.m2, fmt);
    } else {
      LeafNoParens(e, fmt);
    }
  }

  /** A leaf prints without parentheses (when numbers do). */
  lemma LeafNoParens(e: Expr, fmt: real -> string)
    requires !e.Product?
    requires forall x :: NoParens(fmt(x))
    ensures NoParens(Render(e, fmt))
    ensures multiset(Render(e, fmt))['('] == 0 && multiset(Render(e, fmt))[')'] == 0
  {
    match e
    case Identity =>
    case Scalar(v) =>
      assert NoParens(fmt(v));
    case Matrix(rows) =>
      MatrixTextNoParens(rows, fmt);
      NoParensCount(Render(e, fmt));
  }

  /** A product adds one "(" and one ")" to those of its operands. */
  lemma ProductParens(a: Expr, b: Expr, fmt: real -> string)
    ensures multiset(Render(Product(a, b), fmt))['(']
         == multiset(Render(a, fmt))['('] + multiset(Render(b, fmt))['('] + 1
    ensures multiset(Render(Product(a, b), fmt))[')']
         == multiset(Render(a, fmt))[')'] + multiset(Render(b, fmt))[')'] + 1
  {
    ParenthesizedCount(Render(a, fmt), Render(b, fmt));
  }

  lemma NoParensCount(s: string)
    requires NoParens(s)
    ensures multiset(s)['('] == 0 && multiset(s)[')'] == 0
  {
  }

  /** "(a * b)" holds one more "(" and one more ")" than a and b together. */
  lemma ParenthesizedCount(a: string, b: string)
    ensures multiset("(" + a + " * " + b + ")")['('] == multiset(a)['('] + multiset(b)['('] + 1
    ensures multiset("(" + a + " * " + b + ")")[')'] == multiset(a)[')'] + multiset(b)[')'] + 1
  {
    assert multiset("(" + a + " * " + b + ")")
        == multiset("(") + multiset(a) + multiset(" * ") + multiset(b) + multiset(")");
  }

  /** A product prints in parentheses and a leaf never opens with one (when
      numbers print as nonempty text that does not open with one). */
  lemma RenderOpensWithParen(e: Expr, fmt: real -> string)
    requires forall x :: |fmt(x)| > 0 && fmt(x)[0] != '('
    ensures |Render(e, fmt)| > 0
    ensures Render(e, fmt)[0] == '(' <==> e.Product?
  {
    if e.Scalar? {
      assert |fmt(e.value)| > 0 && fmt(e.value)[0] != '(';
    }
  }

  // ---------------------------------------------------------------------------
  // A formatter for doubles written in plain decimal notation
  // ---------------------------------------------------------------------------

  /** Every character is a decimal digit. */
  predicate Digits(s: string) {
    forall i :: 0 <= i < |s| ==> '0' <= s[i] <= '9'
  }

  /** The digit character for d. */
  function DigitChar(d: nat): (c: char)
    requires d < 10
    ensures c as int == '0' as int + d
  {
    "0123456789"[d]
  }

  /** The decimal digits of n, most significant first. */
  function NatText(n: nat): (r: string)
    ensures |r| > 0 && Digits(r)
    ensures n > 0 ==> r[0] != '0'
    decreases n
  {
    if n < 10 then [DigitChar(n)] else NatText(n / 10) + [DigitChar(n % 10)]
  }

  /** The decimal digits of a fraction, up to `fuel` of them. */
  function FractionDigits(f: real, fuel: nat): (r: string)
    requires 0.0 <= f < 1.0
    ensures Digits(r) && |r| <= fuel
    decreases fuel
  {
    if f == 0.0 || fuel == 0 then ""
    else
      var d := (f * 10.0).Floor;
      [DigitChar(d)] + FractionDigits(f * 10.0 - d as real, fuel - 1)
  }

  /** A double in plain decimal notation: an optional sign, the integer part,
      a point and the fraction, with at least one fraction digit. */
  function DoubleText(x: real): (r: string)
    ensures |r| > 0 && (r[0] == '-' <==> x < 0.0)
    ensures '.' in r
    ensures NoParens(r)
  {
    var m := if x < 0.0 then -x else x;
    var whole := m.Floor;
    var frac := m - whole as real;
    (if x < 0.0 then "-" else "") + NatText(whole) + "."
      + (if frac == 0.0 then "0" else FractionDigits(frac, 17))
  }

  /** With DoubleText as the formatter, the printed form holds exactly one
      "(" and one ")" per product. */
  lemma DoubleTextParens(e: Expr)
    ensures multiset(Render(e, DoubleText))['('] == ProductCount(e)
    ensures multiset(Render(e, DoubleText))[')'] == ProductCount(e)
  {
    RenderParens(e, DoubleText);
  }
}
