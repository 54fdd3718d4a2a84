/**
 * Worked inputs for the parser and the evaluator: precedence, left
 * associativity, whitespace, the two syntax errors, division by zero, and
 * unbound names, the last run through the cursor as Demo.java does.
 */
module Examples {
  import opened Failures
  import opened Input
  import opened Operators
  import opened Environments
  import opened Ast
  import opened Parser

  // ---------------------------------------------------------------------------
  // Token-level facts, so that the parses below unfold one token at a time
  // ---------------------------------------------------------------------------

  /** Skipping the character at j lands on n when only whitespace lies between. */
  lemma AdvanceTo(s: seq<char>, j: nat, n: nat)
    requires j < n <= |s| && IsLookahead(s, n)
    requires forall k :: j < k < n ==> IsWhitespace(s[k])
    ensures Advance(s, j) == n
  {
    SpanEndIs(s, j + 1, n, IsWhitespace);
  }

  /** An identifier occupying [i, e), followed by whitespace up to the lookahead n. */
  lemma IdentFactor(s: seq<char>, i: nat, e: nat, n: nat)
    requires i < e <= n <= |s| && IsLetter(s[i]) && IsLookahead(s, n)
    requires forall k :: i < k < e ==> IsLetterOrDigit(s[k])
    requires e < |s| ==> !IsLetterOrDigit(s[e])
    requires forall k :: e <= k < n ==> IsWhitespace(s[k])
    ensures FactorAt(s, i) == Ok(Parsed(IdentExpr(s[i..e]), n))
  {
    SpanEndIs(s, i + 1, e, IsLetterOrDigit);
    SpanEndIs(s, e, n, IsWhitespace);
  }

  /** A one-digit number at i, followed by whitespace up to the lookahead n. */
  lemma DigitFactor(s: seq<char>, i: nat, n: nat)
    requires i < n <= |s| && IsDigit(s[i]) && IsLookahead(s, n)
    requires i + 1 < |s| ==> !IsDigit(s[i + 1])
    requires forall k :: i < k < n ==> IsWhitespace(s[k])
    ensures FactorAt(s, i) == Ok(Parsed(NumExpr(DigitValue(s[i])), n))
  {
    SpanEndIs(s, i + 1, i + 1, IsDigit);
    SpanEndIs(s, i + 1, n, IsWhitespace);
    assert s[i..i + 1] == [s[i]];
    assert [s[i]][..0] == [];
    assert DecimalValue(s[i..i + 1]) == DigitValue(s[i]);
    assert NumberEnd(s, i) == i + 1;
  }

  // ---------------------------------------------------------------------------
  // Grouping. Each parse is proved for any string with the given characters,
  // then stated for the literal.
  // ---------------------------------------------------------------------------

  lemma LeftAssociativeAt(s: string)
    requires |s| == 5 && s[0] == '8' && s[1] == '-' && s[2] == '3' && s[3] == '-' && s[4] == '2'
    ensures ExprAt(s, 0)
      == Ok(Parsed(BinOpExpr(BinOpExpr(NumExpr(8), Minus, NumExpr(3)), Minus, NumExpr(2)), 5))
  {
    DigitFactor(s, 0, 1);
    DigitFactor(s, 2, 3);
    DigitFactor(s, 4, 5);
    AdvanceTo(s, 1, 2);
    AdvanceTo(s, 3, 4);
    var eight, three, two := NumExpr(8), NumExpr(3), NumExpr(2);
    assert TermAt(s, 0) == Ok(Parsed(eight, 1));
    assert TermAt(s, 2) == Ok(Parsed(three, 3));
    assert TermAt(s, 4) == Ok(Parsed(two, 5));
    var first := BinOpExpr(eight, Minus, three);
    assert ExprTail(s, first, 3) == Ok(Parsed(BinOpExpr(first, Minus, two), 5));
    assert ExprTail(s, eight, 1) == ExprTail(s, first, 3);
  }

  /** Subtraction groups to the left: 8-3-2 is (8-3)-2, which is 3. */
  lemma LeftAssociative(env: Environment)
    ensures ExprAt("8-3-2", 0)
      == Ok(Parsed(BinOpExpr(BinOpExpr(NumExpr(8), Minus, NumExpr(3)), Minus, NumExpr(2)), 5))
    ensures Eval(BinOpExpr(BinOpExpr(NumExpr(8), Minus, NumExpr(3)), Minus, NumExpr(2)), env) == Ok(3)
  {
    var s := "8-3-2";
    assert |s| == 5 && s[0] == '8' && s[1] == '-' && s[2] == '3' && s[3] == '-' && s[4] == '2';
    LeftAssociativeAt(s);
    LeftAssociativeValue(env);
  }

  lemma LeftAssociativeValue(env: Environment)
    ensures Eval(BinOpExpr(BinOpExpr(NumExpr(8), Minus, NumExpr(3)), Minus, NumExpr(2)), env) == Ok(3)
  {
    assert Apply(Minus, 8, 3) == Ok(5);
    assert Eval(BinOpExpr(NumExpr(8), Minus, NumExpr(3)), env) == Ok(5);
    assert Apply(Minus, 5, 2) == Ok(3);
  }

  lemma PrecedenceAt(s: string)
    requires |s| == 5 && s[0] == '2' && s[1] == '+' && s[2] == '3' && s[3] == '*' && s[4] == '4'
    ensures ExprAt(s, 0)
      == Ok(Parsed(BinOpExpr(NumExpr(2), Plus, BinOpExpr(NumExpr(3), Times, NumExpr(4))), 5))
  {
    DigitFactor(s, 0, 1);
    DigitFactor(s, 2, 3);
    DigitFactor(s, 4, 5);
    AdvanceTo(s, 1, 2);
    AdvanceTo(s, 3, 4);
    var product := BinOpExpr(NumExpr(3), Times, NumExpr(4));
    assert TermTail(s, NumExpr(3), 3) == Ok(Parsed(product, 5));
    assert TermAt(s, 2) == Ok(Parsed(product, 5));
    assert TermAt(s, 0) == Ok(Parsed(NumExpr(2), 1));
    assert ExprTail(s, NumExpr(2), 1) == Ok(Parsed(BinOpExpr(NumExpr(2), Plus, product), 5));
  }

  /** '*' binds tighter than '+': 2+3*4 is 2+(3*4), which is 14. */
  lemma Precedence(env: Environment)
    ensures ExprAt("2+3*4", 0)
      == Ok(Parsed(BinOpExpr(NumExpr(2), Plus, BinOpExpr(NumExpr(3), Times, NumExpr(4))), 5))
    ensures Eval(BinOpExpr(NumExpr(2), Plus, BinOpExpr(NumExpr(3), Times, NumExpr(4))), env) == Ok(14)
  {
    var s := "2+3*4";
    assert |s| == 5 && s[0] == '2' && s[1] == '+' && s[2] == '3' && s[3] == '*' && s[4] == '4';
    PrecedenceAt(s);
    PrecedenceValue(env);
  }

  lemma PrecedenceValue(env: Environment)
    ensures Eval(BinOpExpr(NumExpr(2), Plus, BinOpExpr(NumExpr(3), Times, NumExpr(4))), env) == Ok(14)
  {
    assert Apply(Times, 3, 4) == Ok(12);
    assert Eval(BinOpExpr(NumExpr(3), Times, NumExpr(4)), env) == Ok(12);
    assert Apply(Plus, 2, 12) == Ok(14);
  }

  lemma ParenthesisedAt(s: string)
    requires |s| == 7 && s[0] == '(' && s[1] == '2' && s[2] == '+' && s[3] == '3' && s[4] == ')'
    requires s[5] == '*' && s[6] == '4'
    ensures ExprAt(s, 0)
      == Ok(Parsed(BinOpExpr(BinOpExpr(NumExpr(2), Plus, NumExpr(3)), Times, NumExpr(4)), 7))
  {
    AdvanceTo(s, 0, 1);
    DigitFactor(s, 1, 2);
    DigitFactor(s, 3, 4);
    AdvanceTo(s, 2, 3);
    AdvanceTo(s, 4, 5);
    var sum := BinOpExpr(NumExpr(2), Plus, NumExpr(3));
    assert TermAt(s, 1) == Ok(Parsed(NumExpr(2), 2));
    assert TermAt(s, 3) == Ok(Parsed(NumExpr(3), 4));
    assert ExprTail(s, NumExpr(2), 2) == Ok(Parsed(sum, 4));
    assert ExprAt(s, 1) == Ok(Parsed(sum, 4));
    assert FactorAt(s, 0) == Ok(Parsed(sum, 5));
    AdvanceTo(s, 5, 6);
    DigitFactor(s, 6, 7);
    assert TermTail(s, sum, 5) == Ok(Parsed(BinOpExpr(sum, Times, NumExpr(4)), 7));
  }

  /** Parentheses override precedence and add no node: (2+3)*4 is 20. */
  lemma Parenthesised(env: Environment)
    ensures ExprAt("(2+3)*4", 0)
      == Ok(Parsed(BinOpExpr(BinOpExpr(NumExpr(2), Plus, NumExpr(3)), Times, NumExpr(4)), 7))
    ensures Eval(BinOpExpr(BinOpExpr(NumExpr(2), Plus, NumExpr(3)), Times, NumExpr(4)), env) == Ok(20)
  {
    var s := "(2+3)*4";
    assert |s| == 7 && s[0] == '(' && s[1] == '2' && s[2] == '+' && s[3] == '3' && s[4] == ')' && s[5] == '*' && s[6] == '4';
    ParenthesisedAt(s);
    ParenthesisedValue(env);
  }

  lemma ParenthesisedValue(env: Environment)
    ensures Eval(BinOpExpr(BinOpExpr(NumExpr(2), Plus, NumExpr(3)), Times, NumExpr(4)), env) == Ok(20)
  {
    assert Apply(Plus, 2, 3) == Ok(5);
    assert Eval(BinOpExpr(NumExpr(2), Plus, NumExpr(3)), env) == Ok(5);
    assert Apply(Times, 5, 4) == Ok(20);
  }

  lemma SpacedSumAt(s: string)
    requires |s| == 7 && s[0] == ' ' && s[1] == '1' && s[2] == ' ' && s[3] == '+' && s[4] == ' '
    requires s[5] == '2' && s[6] == ' '
    ensures NextNonWs(s, 0) == 1
    ensures ExprAt(s, 1) == Ok(Parsed(BinOpExpr(NumExpr(1), Plus, NumExpr(2)), 7))
  {
    SpanEndIs(s, 0, 1, IsWhitespace);
    DigitFactor(s, 1, 3);
    DigitFactor(s, 5, 7);
    AdvanceTo(s, 3, 5);
    assert TermAt(s, 1) == Ok(Parsed(NumExpr(1), 3));
    assert TermAt(s, 5) == Ok(Parsed(NumExpr(2), 7));
    assert ExprTail(s, NumExpr(1), 3) == Ok(Parsed(BinOpExpr(NumExpr(1), Plus, NumExpr(2)), 7));
  }

  lemma SumAt(s: string)
    requires |s| == 3 && s[0] == '1' && s[1] == '+' && s[2] == '2'
    ensures ExprAt(s, 0) == Ok(Parsed(BinOpExpr(NumExpr(1), Plus, NumExpr(2)), 3))
  {
    DigitFactor(s, 0, 1);
    DigitFactor(s, 2, 3);
    AdvanceTo(s, 1, 2);
    assert TermAt(s, 0) == Ok(Parsed(NumExpr(1), 1));
    assert TermAt(s, 2) == Ok(Parsed(NumExpr(2), 3));
    assert ExprTail(s, NumExpr(1), 1) == Ok(Parsed(BinOpExpr(NumExpr(1), Plus, NumExpr(2)), 3));
  }

  /** Whitespace around tokens changes nothing but the positions. */
  lemma WhitespaceIgnored()
    ensures NextNonWs(" 1 + 2 ", 0) == 1
    ensures ExprAt(" 1 + 2 ", 1) == Ok(Parsed(BinOpExpr(NumExpr(1), Plus, NumExpr(2)), 7))
    ensures ExprAt("1+2", 0) == Ok(Parsed(BinOpExpr(NumExpr(1), Plus, NumExpr(2)), 3))
  {
    var s := " 1 + 2 ";
    assert |s| == 7 && s[0] == ' ' && s[1] == '1' && s[2] == ' ' && s[3] == '+' && s[4] == ' ' && s[5] == '2' && s[6] == ' ';
    SpacedSumAt(s);
    var t := "1+2";
    assert |t| == 3 && t[0] == '1' && t[1] == '+' && t[2] == '2';
    SumAt(t);
  }

  lemma TrailingInputAt(s: string)
    requires |s| == 3 && s[0] == '1' && s[1] == ' ' && s[2] == '2'
    ensures ExprAt(s, 0) == Ok(Parsed(NumExpr(1), 2))
  {
    DigitFactor(s, 0, 2);
    assert TermAt(s, 0) == Ok(Parsed(NumExpr(1), 2));
  }

  /** parse stops at the first token that cannot continue the expression. */
  lemma TrailingInputLeft()
    ensures ExprAt("1 2", 0) == Ok(Parsed(NumExpr(1), 2))
  {
    var s := "1 2";
    assert |s| == 3 && s[0] == '1' && s[1] == ' ' && s[2] == '2';
    TrailingInputAt(s);
  }

  // ---------------------------------------------------------------------------
  // Errors
  // ---------------------------------------------------------------------------

  lemma MissingFactorAt(s: string)
    requires |s| == 3 && s[0] == '(' && s[1] == '1' && s[2] == '+'
    ensures ExprAt(s, 0) == Err(ExpectedFactor)
  {
    AdvanceTo(s, 0, 1);
    DigitFactor(s, 1, 2);
    AdvanceTo(s, 2, 3);
    assert TermAt(s, 1) == Ok(Parsed(NumExpr(1), 2));
    assert TermAt(s, 3) == Err(ExpectedFactor);
    assert ExprAt(s, 1) == Err(ExpectedFactor);
    assert FactorAt(s, 0) == Err(ExpectedFactor);
    assert TermAt(s, 0) == Err(ExpectedFactor);
  }

  /** An operator with nothing after it: the factor is missing. */
  lemma MissingFactor()
    ensures ExprAt("(1+", 0) == Err(ExpectedFactor)
  {
    var s := "(1+";
    assert |s| == 3 && s[0] == '(' && s[1] == '1' && s[2] == '+';
    MissingFactorAt(s);
  }

  lemma MissingParenthesisAt(s: string)
    requires |s| == 2 && s[0] == '(' && s[1] == '1'
    ensures ExprAt(s, 0) == Err(Expected(')', '\0'))
  {
    AdvanceTo(s, 0, 1);
    DigitFactor(s, 1, 2);
    assert TermAt(s, 1) == Ok(Parsed(NumExpr(1), 2));
    assert ExprAt(s, 1) == Ok(Parsed(NumExpr(1), 2));
    assert CharAt(s, 2) == '\0';
    assert FactorAt(s, 0) == Err(Expected(')', '\0'));
    assert TermAt(s, 0) == Err(Expected(')', '\0'));
  }

  /** An unclosed parenthesis: match(')') finds the end of input instead. */
  lemma MissingParenthesis()
    ensures ExprAt("(1", 0) == Err(Expected(')', '\0'))
  {
    var s := "(1";
    assert |s| == 2 && s[0] == '(' && s[1] == '1';
    MissingParenthesisAt(s);
  }

  lemma DivideByZeroAt(s: string)
    requires |s| == 3 && s[0] == '5' && s[1] == '/' && s[2] == '0'
    ensures ExprAt(s, 0) == Ok(Parsed(BinOpExpr(NumExpr(5), Divide, NumExpr(0)), 3))
  {
    DigitFactor(s, 0, 1);
    DigitFactor(s, 2, 3);
    AdvanceTo(s, 1, 2);
    var quotient := BinOpExpr(NumExpr(5), Divide, NumExpr(0));
    assert TermTail(s, NumExpr(5), 1) == Ok(Parsed(quotient, 3));
    assert TermAt(s, 0) == Ok(Parsed(quotient, 3));
  }

  /** 5/0 is well formed; the division fails only when it is evaluated. */
  lemma DivideByZero(env: Environment)
    ensures ExprAt("5/0", 0) == Ok(Parsed(BinOpExpr(NumExpr(5), Divide, NumExpr(0)), 3))
    ensures Eval(BinOpExpr(NumExpr(5), Divide, NumExpr(0)), env) == Err(DivisionByZero)
  {
    var s := "5/0";
    assert |s| == 3 && s[0] == '5' && s[1] == '/' && s[2] == '0';
    DivideByZeroAt(s);
  }

  // ---------------------------------------------------------------------------
  // A run through the cursor and an environment
  // ---------------------------------------------------------------------------

  lemma XPlusOneAt(s: string)
    requires |s| == 3 && s[0] == 'x' && s[1] == '+' && s[2] == '1'
    ensures NextNonWs(s, 0) == 0
    ensures ExprAt(s, 0) == Ok(Parsed(BinOpExpr(IdentExpr("x"), Plus, NumExpr(1)), 3))
  {
    SpanEndIs(s, 0, 0, IsWhitespace);
    IdentFactor(s, 0, 1, 1);
    assert s[0..1] == "x";
    DigitFactor(s, 2, 3);
    AdvanceTo(s, 1, 2);
    assert TermAt(s, 0) == Ok(Parsed(IdentExpr("x"), 1));
    assert TermAt(s, 2) == Ok(Parsed(NumExpr(1), 3));
    assert ExprTail(s, IdentExpr("x"), 1) == Ok(Parsed(BinOpExpr(IdentExpr("x"), Plus, NumExpr(1)), 3));
  }

  /**
   * The steps of Demo.java on "x+1": parse from a fresh cursor, find the end
   * of input, and evaluate in a fresh environment, where x is unbound and
   * reads as 0; then bind x to 41 and evaluate again.
   */
  method RunXPlusOne() returns (atEnd: bool, unbound: Result<int, ArithmeticError>, bound: Result<int, ArithmeticError>)
    ensures atEnd && unbound == Ok(1) && bound == Ok(42)
  {
    var s := "x+1";
    assert |s| == 3 && s[0] == 'x' && s[1] == '+' && s[2] == '1';
    XPlusOneAt(s);
    var input := new RDInput(s);
    var e := Parse(input);
    var tree := BinOpExpr(IdentExpr("x"), Plus, NumExpr(1));
    assert e == Ok(tree);
    atEnd := input.AtEnd();
    var env := new Environment();
    assert Eval(IdentExpr("x"), env) == Ok(0);
    assert Eval(NumExpr(1), env) == Ok(1);
    unbound := Eval(tree, env);
    assert unbound == Apply(Plus, 0, 1);
    env.Bind("x", 41);
    assert Eval(IdentExpr("x"), env) == Ok(41);
    assert Eval(NumExpr(1), env) == Ok(1);
    bound := Eval(tree, env);
    assert bound == Apply(Plus, 41, 1);
  }
}
