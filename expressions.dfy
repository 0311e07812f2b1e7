/** The expression tree (src/expression.rs): a closed sum of four node kinds
    whose children are exclusively owned, so every expression is a finite tree. */
module Expressions {
  import opened Outcomes
  import opened Tokens

  datatype Expr =
    | Binary(left: Expr, operator: Token, right: Expr)
    | Grouping(expression: Expr)
    | Literal(value: Option<string>)
    | Unary(operator: Token, right: Expr)

  /** `Binary::new` */
  function NewBinary(left: Expr, operator: Token, right: Expr): (e: Expr)
    ensures e.Binary? && e.left == left && e.operator == operator && e.right == right
  {
    Binary(left, operator, right)
  }

  /** `Grouping::new` */
  function NewGrouping(expression: Expr): (e: Expr)
    ensures e.Grouping? && e.expression == expression
  {
    Grouping(expression)
  }

  /** `Literal::new` */
  function NewLiteral(value: Option<string>): (e: Expr)
    ensures e.Literal? && e.value == value
  {
    Literal(value)
  }

  /** `Unary::new` */
  function NewUnary(operator: Token, right: Expr): (e: Expr)
    ensures e.Unary? && e.operator == operator && e.right == right
  {
    Unary(operator, right)
  }

  /** Every expression is exactly one of the four node kinds. */
  lemma ExactlyOneKind(e: Expr)
    ensures (if e.Binary? then 1 else 0) + (if e.Grouping? then 1 else 0)
          + (if e.Literal? then 1 else 0) + (if e.Unary? then 1 else 0) == 1
  {
  }

  /** Number of nodes of the tree. */
  function Size(e: Expr): (n: nat)
    ensures n >= 1
  {
    match e
    case Binary(left, _, right) => 1 + Size(left) + Size(right)
    case Grouping(inner) => 1 + Size(inner)
    case Literal(_) => 1
    case Unary(_, right) => 1 + Size(right)
  }

  /** Total number of nodes of a list of trees. */
  function SizeAll(es: seq<Expr>): (n: nat)
    ensures es != [] ==> n >= Size(es[|es| - 1])
  {
    if es == [] then 0 else SizeAll(es[..|es| - 1]) + Size(es[|es| - 1])
  }

  /** A child has strictly fewer nodes than its parent: structural recursion
      over an expression terminates. */
  lemma ChildrenAreSmaller(e: Expr)
    ensures e.Binary? ==> Size(e.left) < Size(e) && Size(e.right) < Size(e)
    ensures e.Grouping? ==> Size(e.expression) < Size(e)
    ensures e.Unary? ==> Size(e.right) < Size(e)
  {
  }

  lemma SizeAllPair(a: Expr, b: Expr)
    ensures SizeAll([a, b]) == Size(a) + Size(b)
  {
    assert [a, b][..1] == [a];
    SizeAllSingle(a);
  }

  lemma SizeAllSingle(a: Expr)
    ensures SizeAll([a]) == Size(a)
  {
    assert [a][..0] == [];
  }
}
