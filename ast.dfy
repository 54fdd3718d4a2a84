/** Expression trees and their evaluation (the records of Expr.java). */
module Ast {
  import opened Failures
  import opened Operators
  import opened Environments

  /** The three record variants implementing the Expr interface. */
  datatype Expr =
    | BinOpExpr(left: Expr, op: BinOp, right: Expr)
    | IdentExpr(id: string)
    | NumExpr(n: int)

  /** The names a tree refers to. */
  function Vars(e: Expr): set<string> {
    match e
    case BinOpExpr(l, _, r) => Vars(l) + Vars(r)
    case IdentExpr(id) => {id}
    case NumExpr(_) => {}
  }

  /** Whether the tree holds a division, the only operation that can fail. */
  predicate ContainsDivide(e: Expr) {
    match e
    case BinOpExpr(l, op, r) => op == Divide || ContainsDivide(l) || ContainsDivide(r)
    case IdentExpr(_) => false
    case NumExpr(_) => false
  }

  /**
   * eval: a binary node evaluates its left operand, then its right one, then
   * applies its operator; an identifier reads the environment; a number is
   * itself. Being a function, it can change neither the tree nor env.
   */
  function Eval(e: Expr, env: Environment): (r: Result<int, ArithmeticError>)
    reads env
    ensures !ContainsDivide(e) ==> r.Ok?
  {
    match e
    case BinOpExpr(left, op, right) =>
      var lv :- Eval(left, env);
      var rv :- Eval(right, env);
      Apply(op, lv, rv)
    case IdentExpr(id) => Ok(env.Lookup(id))
    case NumExpr(n) => Ok(n)
  }

  /** The value of a tree depends only on the bindings of the names it refers to. */
  lemma {:induction false} EvalDependsOnlyOnVars(e: Expr, env1: Environment, env2: Environment)
    requires forall x :: x in Vars(e) ==> env1.Lookup(x) == env2.Lookup(x)
    ensures Eval(e, env1) == Eval(e, env2)
  {
    match e
    case BinOpExpr(l, _, r) =>
      EvalDependsOnlyOnVars(l, env1, env2);
      EvalDependsOnlyOnVars(r, env1, env2);
    case IdentExpr(id) =>
      assert id in Vars(e);
    case NumExpr(_) =>
  }
}
