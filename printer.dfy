/**
 * A reference printer for expression trees and the round trip it completes
 * with the parser: printing a tree fully parenthesised and parsing the text
 * gives the same tree back and consumes the whole input.
 */
module Printer {
  import opened Failures
  import opened Input
  import opened Operators
  import opened Ast
  import opened Parser

  /** The digit character for 0 <= d < 10. */
  function DigitChar(d: int): (ch: char)
    requires 0 <= d < 10
    ensures IsDigit(ch) && DigitValue(ch) == d
  {
    (48 + d) as char
  }

  /** The decimal rendering of n, without leading zeros. */
  function NatToDigits(n: nat): (ds: string)
    ensures |ds| > 0
    ensures forall j :: 0 <= j < |ds| ==> IsDigit(ds[j])
    decreases n
  {
    if n < 10 then [DigitChar(n)] else NatToDigits(n / 10) + [DigitChar(n % 10)]
  }

  /** Reading back a rendered number gives the number. */
  lemma {:induction false} DecimalRoundTrip(n: nat)
    ensures DecimalValue(NatToDigits(n)) == n
  {
    var ds := NatToDigits(n);
    if n < 10 {
      assert ds[..0] == [];
    } else {
      DecimalRoundTrip(n / 10);
      assert ds[..|ds| - 1] == NatToDigits(n / 10);
    }
  }

  predicate IsIdentifier(id: string) {
    |id| > 0 && IsLetter(id[0]) && forall j :: 0 <= j < |id| ==> IsLetterOrDigit(id[j])
  }

  /** The trees the parser can produce: valid names and non-negative numbers. */
  predicate WellFormed(e: Expr) {
    match e
    case BinOpExpr(l, _, r) => WellFormed(l) && WellFormed(r)
    case IdentExpr(id) => IsIdentifier(id)
    case NumExpr(n) => 0 <= n
  }

  /** The tree in concrete syntax, every binary node in parentheses. */
  function Print(e: Expr): (p: string)
    requires WellFormed(e)
    ensures |p| > 0 && (p[0] == '(' || IsLetterOrDigit(p[0]))
  {
    match e
    case BinOpExpr(l, op, r) => "(" + Print(l) + [OpChar(op)] + Print(r) + ")"
    case IdentExpr(id) => id
    case NumExpr(n) => NatToDigits(n)
  }

  /** Text t occurs in s at index i. */
  predicate OccursAt(s: seq<char>, i: nat, t: seq<char>) {
    i + |t| <= |s| && forall k {:trigger t[k]} :: 0 <= k < |t| ==> s[i + k] == t[k]
  }

  /** Position j ends a token: the input ends there or holds punctuation. */
  predicate Delimited(s: seq<char>, j: nat) {
    j <= |s| && (j < |s| ==> !IsLetterOrDigit(s[j]) && !IsWhitespace(s[j]))
  }

  /** A factor printed at i and followed by a delimiter parses back to the tree. */
  lemma {:induction false} FactorRoundTrip(s: seq<char>, i: nat, e: Expr)
    requires WellFormed(e) && OccursAt(s, i, Print(e)) && Delimited(s, i + |Print(e)|)
    ensures IsLookahead(s, i)
    ensures FactorAt(s, i) == Ok(Parsed(e, i + |Print(e)|))
    decreases e, 3
  {
    match e
    case IdentExpr(id) => IdentRoundTrip(s, i, id);
    case NumExpr(n) => NumberRoundTrip(s, i, n);
    case BinOpExpr(l, op, r) => ParenRoundTrip(s, i, l, op, r);
  }

  /** The case of FactorRoundTrip for an identifier. */
  lemma IdentRoundTrip(s: seq<char>, i: nat, id: string)
    requires IsIdentifier(id) && OccursAt(s, i, id) && Delimited(s, i + |id|)
    ensures IsLookahead(s, i)
    ensures FactorAt(s, i) == Ok(Parsed(IdentExpr(id), i + |id|))
  {
    var end := i + |id|;
    assert s[i + 0] == id[0];
    forall j | i < j < end ensures IsLetterOrDigit(s[j]) {
      assert s[i + (j - i)] == id[j - i];
    }
    SpanEndIs(s, i + 1, end, IsLetterOrDigit);
    SpanEndIs(s, end, end, IsWhitespace);
    assert s[i..end] == id by {
      forall k | 0 <= k < |id| ensures s[i..end][k] == id[k] {
        assert s[i + k] == id[k];
      }
    }
  }

  /** The case of FactorRoundTrip for a number. */
  lemma NumberRoundTrip(s: seq<char>, i: nat, n: nat)
    requires OccursAt(s, i, NatToDigits(n)) && Delimited(s, i + |NatToDigits(n)|)
    ensures IsLookahead(s, i)
    ensures FactorAt(s, i) == Ok(Parsed(NumExpr(n), i + |NatToDigits(n)|))
  {
    var p := NatToDigits(n);
    var end := i + |p|;
    assert s[i + 0] == p[0];
    forall j | i < j < end ensures IsDigit(s[j]) {
      assert s[i + (j - i)] == p[j - i];
    }
    SpanEndIs(s, i + 1, end, IsDigit);
    SpanEndIs(s, end, end, IsWhitespace);
    assert s[i..end] == p by {
      forall k | 0 <= k < |p| ensures s[i..end][k] == p[k] {
        assert s[i + k] == p[k];
      }
    }
    DecimalRoundTrip(n);
  }

  /** The case of FactorRoundTrip for a binary node: "(" left op right ")". */
  lemma {:induction false} ParenRoundTrip(s: seq<char>, i: nat, l: Expr, op: BinOp, r: Expr)
    requires WellFormed(l) && WellFormed(r)
    requires OccursAt(s, i, Print(BinOpExpr(l, op, r))) && Delimited(s, i + |Print(BinOpExpr(l, op, r))|)
    ensures IsLookahead(s, i)
    ensures FactorAt(s, i) == Ok(Parsed(BinOpExpr(l, op, r), i + |Print(BinOpExpr(l, op, r))|))
    decreases BinOpExpr(l, op, r), 2
  {
    var d := ParenParts(s, i, l, op, r);
    ParenFactorOk(s, i, BinOpExpr(l, op, r), d, i + |Print(BinOpExpr(l, op, r))|);
  }

  /**
   * The parts of a printed binary node: '(' at i, the inner expression from
   * i + 1 up to the ')' at d, and the end of the node just past d.
   */
  lemma {:induction false} ParenParts(s: seq<char>, i: nat, l: Expr, op: BinOp, r: Expr) returns (d: nat)
    requires WellFormed(l) && WellFormed(r)
    requires OccursAt(s, i, Print(BinOpExpr(l, op, r))) && Delimited(s, i + |Print(BinOpExpr(l, op, r))|)
    ensures IsLookahead(s, i) && CharAt(s, i) == '(' && Advance(s, i) == i + 1
    ensures ExprAt(s, i + 1) == Ok(Parsed(BinOpExpr(l, op, r), d))
    ensures CharAt(s, d) == ')' && Advance(s, d) == i + |Print(BinOpExpr(l, op, r))|
    decreases BinOpExpr(l, op, r), 1
  {
    var p := Print(BinOpExpr(l, op, r));
    var b, c;
    b, c, d := ParenLayout(s, i, Print(l), OpChar(op), Print(r), p);
    InnerParses(s, i + 1, b, c, d, l, op, r);
  }

  /**
   * Inside the parentheses, the printed left operand at a, the operator at b
   * and the printed right operand at c, up to the ')' at d, parse as one
   * expression.
   */
  lemma {:induction false} InnerParses(s: seq<char>, a: nat, b: nat, c: nat, d: nat, l: Expr, op: BinOp, r: Expr)
    requires WellFormed(l) && WellFormed(r)
    requires b == a + |Print(l)| && c == b + 1 && d == c + |Print(r)|
    requires OccursAt(s, a, Print(l)) && Delimited(s, b)
    requires OccursAt(s, c, Print(r)) && Delimited(s, d)
    requires IsLookahead(s, b) && CharAt(s, b) == OpChar(op) && Advance(s, b) == c
    requires IsLookahead(s, d) && CharAt(s, d) == ')'
    ensures ExprAt(s, a) == Ok(Parsed(BinOpExpr(l, op, r), d))
    decreases BinOpExpr(l, op, r), 0
  {
    FactorRoundTrip(s, a, l);
    FactorRoundTrip(s, c, r);
    OpOfOpChar(op);
    InnerRoundTrip(s, a, b, d, l, op, r);
  }

  /** Where the parts of p == "(" pl oc pr ")" lie when p occurs at i followed by a delimiter. */
  lemma ParenLayout(s: seq<char>, i: nat, pl: seq<char>, oc: char, pr: seq<char>, p: seq<char>)
    returns (b: nat, c: nat, d: nat)
    requires p == "(" + pl + [oc] + pr + ")"
    requires OccursAt(s, i, p) && Delimited(s, i + |p|)
    requires |pl| > 0 && (pl[0] == '(' || IsLetterOrDigit(pl[0]))
    requires |pr| > 0 && (pr[0] == '(' || IsLetterOrDigit(pr[0]))
    requires !IsWhitespace(oc) && !IsLetterOrDigit(oc)
    ensures b == i + 1 + |pl| && c == b + 1 && d == c + |pr| && d + 1 == i + |p|
    ensures OccursAt(s, i + 1, pl) && Delimited(s, b)
    ensures OccursAt(s, c, pr) && Delimited(s, d)
    ensures IsLookahead(s, i) && CharAt(s, i) == '(' && Advance(s, i) == i + 1
    ensures IsLookahead(s, b) && CharAt(s, b) == oc && Advance(s, b) == c
    ensures IsLookahead(s, d) && CharAt(s, d) == ')' && Advance(s, d) == d + 1
  {
    b := i + 1 + |pl|;
    c := b + 1;
    d := c + |pr|;
    Layout(s, i, pl, oc, pr);
    assert s[i + 1] == pl[0] by { assert s[i + 1 + 0] == pl[0]; }
    assert s[c] == pr[0] by { assert s[c + 0] == pr[0]; }
    PunctuationAt(s, i, '(');
    PunctuationAt(s, b, oc);
    PunctuationAt(s, d, ')');
  }

  /** A non-blank character at j directly followed by a non-blank one is consumed by one skip. */
  lemma PunctuationAt(s: seq<char>, j: nat, ch: char)
    requires j < |s| && s[j] == ch && !IsWhitespace(ch)
    requires j + 1 < |s| ==> !IsWhitespace(s[j + 1])
    ensures IsLookahead(s, j) && CharAt(s, j) == ch && Advance(s, j) == j + 1
  {
    SpanEndIs(s, j + 1, j + 1, IsWhitespace);
  }

  /** A parenthesised expression followed by ')' is a factor with the same tree. */
  lemma ParenFactorOk(s: seq<char>, i: nat, tree: Expr, close: nat, end: nat)
    requires IsLookahead(s, i) && CharAt(s, i) == '('
    requires ExprAt(s, Advance(s, i)) == Ok(Parsed(tree, close)) && CharAt(s, close) == ')'
    requires Advance(s, close) == end
    ensures FactorAt(s, i) == Ok(Parsed(tree, end))
  {
  }

  /** Where the parts of "(" pl oc pr ")" lie when it occurs at i. */
  lemma Layout(s: seq<char>, i: nat, pl: seq<char>, oc: char, pr: seq<char>)
    requires OccursAt(s, i, "(" + pl + [oc] + pr + ")")
    ensures s[i] == '('
    ensures OccursAt(s, i + 1, pl)
    ensures s[i + 1 + |pl|] == oc
    ensures OccursAt(s, i + 2 + |pl|, pr)
    ensures s[i + 2 + |pl| + |pr|] == ')'
  {
    var p := "(" + pl + [oc] + pr + ")";
    var a := i + 1;
    var b := a + |pl|;
    var c := b + 1;
    var d := c + |pr|;
    assert s[i + 0] == p[0];
    forall k | 0 <= k < |pl| ensures s[a + k] == pl[k] {
      assert s[i + (1 + k)] == p[1 + k];
    }
    assert s[i + (b - i)] == p[b - i];
    forall k | 0 <= k < |pr| ensures s[c + k] == pr[k] {
      assert s[i + (c - i + k)] == p[c - i + k];
    }
    assert s[i + (d - i)] == p[d - i];
  }

  /** Inside the parentheses, l op r parses to the single node BinOpExpr(l, op, r). */
  lemma InnerRoundTrip(s: seq<char>, a: nat, b: nat, d: nat, l: Expr, op: BinOp, r: Expr)
    requires IsLookahead(s, a) && IsLookahead(s, b) && IsLookahead(s, d)
    requires FactorAt(s, a) == Ok(Parsed(l, b))
    requires CharAt(s, b) == OpChar(op) && OpOf(OpChar(op)) == Some(op)
    requires FactorAt(s, Advance(s, b)) == Ok(Parsed(r, d))
    requires CharAt(s, d) == ')'
    ensures ExprAt(s, a) == Ok(Parsed(BinOpExpr(l, op, r), d))
  {
    var e := BinOpExpr(l, op, r);
    assert TermTail(s, e, d) == Ok(Parsed(e, d));
    assert ExprTail(s, e, d) == Ok(Parsed(e, d));
    if IsMulOp(OpChar(op)) {
      TermAtUnfold(s, a);
      TermTailUnfold(s, l, b);
    } else {
      TermAtUnfold(s, a);
      TermAtUnfold(s, Advance(s, b));
      assert ExprTail(s, l, b) == ExprTail(s, e, d);
    }
  }

  /**
   * Parsing the printed form of any tree from the start of the input gives the
   * tree back and leaves the cursor at the end of the input.
   */
  lemma ParseRoundTrip(e: Expr)
    requires WellFormed(e)
    ensures var s := Print(e);
      NextNonWs(s, 0) == 0 && ExprAt(s, 0) == Ok(Parsed(e, |s|))
  {
    var s := Print(e);
    assert OccursAt(s, 0, s) by {
      forall k | 0 <= k < |s| ensures s[0 + k] == s[k] {
      }
    }
    FactorRoundTrip(s, 0, e);
    SpanEndIs(s, 0, 0, IsWhitespace);
    TermAtUnfold(s, 0);
  }
}
