/**
 * The recursive-descent parser (the static methods of Expr.java):
 *
 *   Expression := Term (('+'|'-') Term)*
 *   Term       := Factor (('*'|'/') Factor)*
 *   Factor     := ident | int | '(' Expression ')'
 *
 * ExprAt, TermAt and FactorAt give the meaning of each procedure as a
 * function of the input and the lookahead index: the tree built and the index
 * of the lookahead left behind, or the syntax error raised. ExprTail and
 * TermTail are the `while` loops, as the left fold they perform. The methods
 * Parse, ParseTerm and ParseFactor run on the mutable cursor and are proved to
 * agree with them. Termination follows the measure (input left, level).
 */
module Parser {
  import opened Failures
  import opened Input
  import opened Operators
  import opened Ast

  /** A parsed tree and the lookahead index after it. */
  datatype Parsed = Parsed(tree: Expr, next: nat)

  /** Expression: a term, then the terms that follow it joined by '+'/'-'. */
  function ExprAt(s: seq<char>, i: nat): (r: Result<Parsed, SyntaxError>)
    requires IsLookahead(s, i)
    ensures r.Ok? ==> i < r.value.next && IsLookahead(s, r.value.next)
    ensures r.Ok? ==> !IsAddOp(CharAt(s, r.value.next)) && !IsMulOp(CharAt(s, r.value.next))
    decreases |s| - i, 4
  {
    var t :- TermAt(s, i);
    ExprTail(s, t.tree, t.next)
  }

  /** The loop of parse: folds each further term into acc, left-associatively. */
  function ExprTail(s: seq<char>, acc: Expr, j: nat): (r: Result<Parsed, SyntaxError>)
    requires IsLookahead(s, j)
    ensures r.Ok? ==> j <= r.value.next && IsLookahead(s, r.value.next)
    ensures r.Ok? ==> !IsAddOp(CharAt(s, r.value.next))
    ensures r.Ok? && r.value.next != j ==> !IsMulOp(CharAt(s, r.value.next))
    decreases |s| - j, 3
  {
    var ch := CharAt(s, j);
    if IsAddOp(ch) then
      var t :- TermAt(s, Advance(s, j));
      ExprTail(s, BinOpExpr(acc, OpOf(ch).value, t.tree), t.next)
    else
      Ok(Parsed(acc, j))
  }

  /** Term: a factor, then the factors that follow it joined by '*'/'/'. */
  function TermAt(s: seq<char>, i: nat): (r: Result<Parsed, SyntaxError>)
    requires IsLookahead(s, i)
    ensures r.Ok? ==> i < r.value.next && IsLookahead(s, r.value.next)
    ensures r.Ok? ==> !IsMulOp(CharAt(s, r.value.next))
    decreases |s| - i, 2
  {
    var f :- FactorAt(s, i);
    TermTail(s, f.tree, f.next)
  }

  /** The loop of parseTerm: folds each further factor into acc, left-associatively. */
  function TermTail(s: seq<char>, acc: Expr, j: nat): (r: Result<Parsed, SyntaxError>)
    requires IsLookahead(s, j)
    ensures r.Ok? ==> j <= r.value.next && IsLookahead(s, r.value.next)
    ensures r.Ok? ==> !IsMulOp(CharAt(s, r.value.next))
    decreases |s| - j, 1
  {
    var ch := CharAt(s, j);
    if IsMulOp(ch) then
      var f :- FactorAt(s, Advance(s, j));
      TermTail(s, BinOpExpr(acc, OpOf(ch).value, f.tree), f.next)
    else
      Ok(Parsed(acc, j))
  }

  /** Factor: an identifier, an integer, or a parenthesised expression. */
  function FactorAt(s: seq<char>, i: nat): (r: Result<Parsed, SyntaxError>)
    requires IsLookahead(s, i)
    ensures r.Ok? ==> i < r.value.next && IsLookahead(s, r.value.next)
    ensures IsLetter(CharAt(s, i)) || IsDigit(CharAt(s, i)) ==> r.Ok?
    ensures r == Err(ExpectedFactor) <==>
      (!IsLetter(CharAt(s, i)) && !IsDigit(CharAt(s, i)) && CharAt(s, i) != '(')
      || (CharAt(s, i) == '(' && ExprAt(s, Advance(s, i)) == Err(ExpectedFactor))
    decreases |s| - i, 0
  {
    var ch := CharAt(s, i);
    if IsLetter(ch) then
      var e := IdentEnd(s, i);
      Ok(Parsed(IdentExpr(s[i..e]), NextNonWs(s, e)))
    else if IsDigit(ch) then
      var e := NumberEnd(s, i);
      Ok(Parsed(NumExpr(DecimalValue(s[i..e])), NextNonWs(s, e)))
    else if ch == '(' then
      var inner :- ExprAt(s, Advance(s, i));
      if CharAt(s, inner.next) == ')' then
        Ok(Parsed(inner.tree, Advance(s, inner.next)))
      else
        Err(Expected(')', CharAt(s, inner.next)))
    else
      Err(ExpectedFactor)
  }

  /**
   * A factor starting with '(' holds an expression that must be followed by
   * ')'; the factor is that expression's own tree, with no node added.
   */
  lemma ParenFactor(s: seq<char>, i: nat)
    requires IsLookahead(s, i) && CharAt(s, i) == '('
    ensures var inner := ExprAt(s, Advance(s, i));
      FactorAt(s, i).Ok? <==> inner.Ok? && CharAt(s, inner.value.next) == ')'
    ensures var inner := ExprAt(s, Advance(s, i));
      FactorAt(s, i).Ok? ==> FactorAt(s, i).value == Parsed(inner.value.tree, Advance(s, inner.value.next))
  {
  }

  // One unfolding of each grammar function whose first step succeeds, for
  // proofs about particular inputs.

  /** An expression is its first term followed by the loop of parse. */
  lemma ExprAtUnfold(s: seq<char>, i: nat)
    requires IsLookahead(s, i) && TermAt(s, i).Ok?
    ensures var t := TermAt(s, i).value; ExprAt(s, i) == ExprTail(s, t.tree, t.next)
  {
  }

  /** One iteration of the loop of parse. */
  lemma ExprTailUnfold(s: seq<char>, acc: Expr, j: nat)
    requires IsLookahead(s, j) && IsAddOp(CharAt(s, j)) && TermAt(s, Advance(s, j)).Ok?
    ensures var t := TermAt(s, Advance(s, j)).value;
      ExprTail(s, acc, j) == ExprTail(s, BinOpExpr(acc, OpOf(CharAt(s, j)).value, t.tree), t.next)
  {
  }

  /** A term is its first factor followed by the loop of parseTerm. */
  lemma TermAtUnfold(s: seq<char>, i: nat)
    requires IsLookahead(s, i) && FactorAt(s, i).Ok?
    ensures var f := FactorAt(s, i).value; TermAt(s, i) == TermTail(s, f.tree, f.next)
  {
  }

  /** One iteration of the loop of parseTerm. */
  lemma TermTailUnfold(s: seq<char>, acc: Expr, j: nat)
    requires IsLookahead(s, j) && IsMulOp(CharAt(s, j)) && FactorAt(s, Advance(s, j)).Ok?
    ensures var f := FactorAt(s, Advance(s, j)).value;
      TermTail(s, acc, j) == TermTail(s, BinOpExpr(acc, OpOf(CharAt(s, j)).value, f.tree), f.next)
  {
  }

  /** The method's result r and final lookahead index agree with the specification spec. */
  predicate Reflects(spec: Result<Parsed, SyntaxError>, r: Result<Expr, SyntaxError>, index: nat) {
    match spec
    case Ok(p) => r == Ok(p.tree) && index == p.next
    case Err(x) => r == Err(x)
  }

  /** Expr.parse on the cursor. */
  method Parse(input: RDInput) returns (r: Result<Expr, SyntaxError>)
    requires input.Valid()
    modifies input
    ensures input.Valid() && old(input.Index()) <= input.Index()
    ensures Reflects(ExprAt(input.src, old(input.Index())), r, input.Index())
    decreases |input.src| - input.Index(), 2
  {
    var e :- ParseTerm(input);
    while input.Peek() == '+' || input.Peek() == '-'
      invariant input.Valid() && old(input.Index()) <= input.Index()
      invariant ExprTail(input.src, e, input.Index()) == ExprAt(input.src, old(input.Index()))
      decreases |input.src| - input.Index()
    {
      var op := ParseOp(input);
      if op.None? {
        assert false;
      }
      var e2 :- ParseTerm(input);
      e := BinOpExpr(e, op.value, e2);
    }
    r := Ok(e);
  }

  /** Expr.parseTerm on the cursor. */
  method ParseTerm(input: RDInput) returns (r: Result<Expr, SyntaxError>)
    requires input.Valid()
    modifies input
    ensures input.Valid() && old(input.Index()) <= input.Index()
    ensures Reflects(TermAt(input.src, old(input.Index())), r, input.Index())
    decreases |input.src| - input.Index(), 1
  {
    var e :- ParseFactor(input);
    while input.Peek() == '*' || input.Peek() == '/'
      invariant input.Valid() && old(input.Index()) <= input.Index()
      invariant TermTail(input.src, e, input.Index()) == TermAt(input.src, old(input.Index()))
      decreases |input.src| - input.Index()
    {
      var op := ParseOp(input);
      if op.None? {
        assert false;
      }
      var e2 :- ParseFactor(input);
      e := BinOpExpr(e, op.value, e2);
    }
    r := Ok(e);
  }

  /** Expr.parseFactor on the cursor. */
  method ParseFactor(input: RDInput) returns (r: Result<Expr, SyntaxError>)
    requires input.Valid()
    modifies input
    ensures input.Valid() && old(input.Index()) <= input.Index()
    ensures Reflects(FactorAt(input.src, old(input.Index())), r, input.Index())
    decreases |input.src| - input.Index(), 0
  {
    if IsLetter(input.Peek()) {
      var id := input.ReadIdent();
      r := Ok(IdentExpr(id));
    } else if IsDigit(input.Peek()) {
      var n := input.ReadInt();
      r := Ok(NumExpr(n));
    } else if input.Peek() == '(' {
      input.Skip();
      var e :- Parse(input);
      var m := input.Match(')');
      if m.Fail? {
        return Err(m.error);
      }
      r := Ok(e);
    } else {
      r := Err(ExpectedFactor);
    }
  }
}
