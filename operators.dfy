/** The binary operators of the abstract syntax (BinOp.java). */
module Operators {
  import opened Failures
  import opened Input

  datatype BinOp = Plus | Minus | Times | Divide

  /** The ArithmeticException Java raises for an integer division by zero. */
  datatype ArithmeticError = DivisionByZero

  function Abs(x: int): int {
    if x < 0 then -x else x
  }

  /**
   * Java's int division: the quotient rounded toward zero, so the remainder
   * l - q * r has the sign of the dividend and is smaller than the divisor in
   * magnitude (Dafny's own `/` is Euclidean and differs for negative operands).
   */
  function TruncDiv(l: int, r: int): (q: int)
    requires r != 0
    ensures 0 <= l ==> 0 <= l - q * r < Abs(r)
    ensures l < 0 ==> -Abs(r) < l - q * r <= 0
  {
    var m := Abs(l) / Abs(r);
    var q := if (l < 0) == (r < 0) then m else -m;
    TruncDivRemainder(l, r, m, q);
    q
  }

  /** The remainder left by the magnitude quotient m, signed as the dividend. */
  lemma TruncDivRemainder(l: int, r: int, m: int, q: int)
    requires r != 0 && m == Abs(l) / Abs(r)
    requires q == if (l < 0) == (r < 0) then m else -m
    ensures 0 <= l ==> 0 <= l - q * r < Abs(r)
    ensures l < 0 ==> -Abs(r) < l - q * r <= 0
  {
    var a, b := Abs(l), Abs(r);
    var rem := a - m * b;
    assert 0 <= rem < b;
    var mb := m * b;
    if r < 0 {
      assert m * r == -mb;
    } else {
      assert m * r == mb;
    }
    assert q * r == if (l < 0) == (r < 0) then m * r else -(m * r);
    assert q * r == if l < 0 then -mb else mb;
  }

  /** The arithmetic an operator stands for; only a division by zero fails. */
  function Apply(op: BinOp, l: int, r: int): (res: Result<int, ArithmeticError>)
    ensures res.Err? <==> op == Divide && r == 0
    ensures res.Err? ==> res.error == DivisionByZero
    ensures op == Plus ==> res == Ok(l + r)
    ensures op == Minus ==> res == Ok(l - r)
    ensures op == Times ==> res == Ok(l * r)
    ensures op == Divide && r != 0 ==> res.Ok? && (0 <= l ==> 0 <= l - res.value * r < Abs(r))
    ensures op == Divide && r != 0 ==> res.Ok? && (l < 0 ==> -Abs(r) < l - res.value * r <= 0)
  {
    match op
    case Plus => Ok(l + r)
    case Minus => Ok(l - r)
    case Times => Ok(l * r)
    case Divide => if r == 0 then Err(DivisionByZero) else Ok(TruncDiv(l, r))
  }

  predicate IsAddOp(ch: char) {
    ch == '+' || ch == '-'
  }

  predicate IsMulOp(ch: char) {
    ch == '*' || ch == '/'
  }

  /** The character that denotes an operator in the concrete syntax. */
  function OpChar(op: BinOp): (ch: char)
    ensures IsAddOp(ch) <==> op == Plus || op == Minus
    ensures IsMulOp(ch) <==> op == Times || op == Divide
  {
    match op
    case Plus => '+'
    case Minus => '-'
    case Times => '*'
    case Divide => '/'
  }

  /** The operator a lookahead character denotes, if any: the inverse of OpChar. */
  function OpOf(ch: char): (op: Option<BinOp>)
    ensures op.Some? <==> IsAddOp(ch) || IsMulOp(ch)
    ensures op.Some? ==> OpChar(op.value) == ch
  {
    match ch
    case '+' => Some(Plus)
    case '-' => Some(Minus)
    case '*' => Some(Times)
    case '/' => Some(Divide)
    case _ => None
  }

  /** Every operator is recognised from its own character. */
  lemma OpOfOpChar(op: BinOp)
    ensures OpOf(OpChar(op)) == Some(op)
  {
  }

  /**
   * BinOp.parse: recognises the operator at the lookahead and consumes it
   * with one skip(); on any other character returns None (Java: null) and
   * consumes nothing.
   */
  method ParseOp(input: RDInput) returns (op: Option<BinOp>)
    requires input.Valid()
    modifies input
    ensures input.Valid()
    ensures op == OpOf(old(input.Peek()))
    ensures op.Some? ==> input.Index() == Advance(input.src, old(input.Index()))
    ensures op.None? ==> unchanged(input)
  {
    match input.Peek()
    case '+' =>
      input.Skip();
      op := Some(Plus);
    case '-' =>
      input.Skip();
      op := Some(Minus);
    case '*' =>
      input.Skip();
      op := Some(Times);
    case '/' =>
      input.Skip();
      op := Some(Divide);
    case _ =>
      op := None;
  }
}
