/** The AST printer (src/ast_printer.rs): renders an expression tree in fully
    parenthesised prefix notation. The visitor's double dispatch over the four
    node kinds is one recursive function with a `match`. */
module AstPrinter {
  import opened Outcomes
  import opened Tokens
  import opened Expressions

  /** The rendering of `e`: `visit_binary`, `visit_grouping`, `visit_literal`
      and `visit_unary`, selected by the node's own kind. */
  function Print(e: Expr): (r: string)
    ensures !e.Literal? ==> |r| >= 2 && r[0] == '(' && r[|r| - 1] == ')'
    decreases Size(e), 0
  {
    match e
    case Binary(left, operator, right) =>
      SizeAllPair(left, right);
      Parenthesize(operator.lexeme, [left, right])
    case Grouping(inner) =>
      SizeAllSingle(inner);
      Parenthesize("Group", [inner])
    case Literal(value) => value.GetOr("nil")
    case Unary(operator, right) =>
      SizeAllSingle(right);
      Parenthesize(operator.lexeme, [right])
  }

  /** `parenthesize`: an opening parenthesis and `name`, then a space and the
      rendering of each child in order, then a closing parenthesis. */
  function Parenthesize(name: string, es: seq<Expr>): (r: string)
    ensures |r| >= 2 && r[0] == '(' && r[|r| - 1] == ')'
    ensures es == [] ==> r == "(" + name + ")"
    decreases SizeAll(es), 2
  {
    "(" + name + Children(es) + ")"
  }

  /** The text the loop of `parenthesize` appends for the children `es`:
      empty exactly when there are none, and otherwise starting with the
      space before the first child. */
  function Children(es: seq<Expr>): (r: string)
    ensures r == [] <==> es == []
    ensures es != [] ==> r[0] == ' '
    decreases SizeAll(es), 1
  {
    if es == [] then "" else Children(es[..|es| - 1]) + " " + Print(es[|es| - 1])
  }

  /** `parenthesize` as the source writes it: a builder that is appended to
      once for the head and twice per child. */
  method ParenthesizeBuilder(name: string, exprs: seq<Expr>) returns (builder: string)
    ensures builder == Parenthesize(name, exprs)
  {
    builder := "";
    builder := builder + ("(" + name);
    for i := 0 to |exprs|
      invariant builder == "(" + name + Children(exprs[..i])
    {
      builder := builder + " ";
      var res := Print(exprs[i]);
      builder := builder + res;
      assert exprs[..i + 1][..i] == exprs[..i];
    }
    assert exprs[..|exprs|] == exprs;
    builder := builder + ")";
  }

  /** The children's text for a list is the text for a first part followed
      by the text for the rest: each child adds a space and its rendering,
      in list order. */
  lemma {:induction false} ChildrenAppend(a: seq<Expr>, b: seq<Expr>)
    ensures Children(a + b) == Children(a) + Children(b)
    decreases |b|
  {
    if b == [] {
      assert a + b == a;
    } else {
      var init := b[..|b| - 1];
      assert (a + b)[..|a + b| - 1] == a + init;
      ChildrenAppend(a, init);
    }
  }

  lemma ChildrenOne(a: Expr)
    ensures Children([a]) == " " + Print(a)
  {
    assert [a][..0] == [];
  }

  lemma ChildrenTwo(a: Expr, b: Expr)
    ensures Children([a, b]) == " " + Print(a) + " " + Print(b)
  {
    assert [a, b][..1] == [a];
    ChildrenOne(a);
  }

  /** A literal renders as its text, or as `nil` when it has none. */
  lemma PrintLiteral(value: Option<string>)
    ensures value.Some? ==> Print(Literal(value)) == value.value
    ensures value.None? ==> Print(Literal(value)) == "nil"
  {
  }

  /** A binary node renders as its operator followed by both operands. */
  lemma PrintBinary(left: Expr, operator: Token, right: Expr)
    ensures Print(Binary(left, operator, right))
         == "(" + operator.lexeme + " " + Print(left) + " " + Print(right) + ")"
  {
    ChildrenTwo(left, right);
  }

  /** A grouping renders as `Group` followed by the inner expression. */
  lemma PrintGrouping(inner: Expr)
    ensures Print(Grouping(inner)) == "(Group " + Print(inner) + ")"
  {
    ChildrenOne(inner);
  }

  /** A unary node renders as its operator followed by its operand. */
  lemma PrintUnary(operator: Token, right: Expr)
    ensures Print(Unary(operator, right)) == "(" + operator.lexeme + " " + Print(right) + ")"
  {
    ChildrenOne(right);
  }

  /** The rendering of the tree for `-x * (y)`, for any operators and texts. */
  lemma PrintNegatedTimesGroup(minus: Token, x: string, star: Token, y: string)
    ensures Print(Binary(Unary(minus, Literal(Some(x))), star, Grouping(Literal(Some(y)))))
         == "(" + star.lexeme + " (" + minus.lexeme + " " + x + ") (Group " + y + "))"
  {
    var negated := Unary(minus, Literal(Some(x)));
    var grouped := Grouping(Literal(Some(y)));
    PrintUnary(minus, Literal(Some(x)));
    PrintGrouping(Literal(Some(y)));
    PrintBinary(negated, star, grouped);
  }

  /** The tree for `-123 * (45.67)`. */
  function ExampleTree(): Expr {
    Binary(Unary(NewToken(Other("MINUS"), "-", "", 1), Literal(Some("123"))),
           NewToken(Other("STAR"), "*", "", 1),
           Grouping(Literal(Some("45.67"))))
  }

  /** `-123 * (45.67)` renders as `(* (- 123) (Group 45.67))`. */
  lemma PrintExample()
    ensures Print(ExampleTree()) == "(* (- 123) (Group 45.67))"
  {
    var minus, star := NewToken(Other("MINUS"), "-", "", 1), NewToken(Other("STAR"), "*", "", 1);
    PrintNegatedTimesGroup(minus, "123", star, "45.67");
    ExampleText(minus.lexeme, star.lexeme);
  }

  /** That rendering, with the example's lexemes and texts filled in. */
  lemma ExampleText(minus: string, star: string)
    requires minus == "-" && star == "*"
    ensures "(" + star + " (" + minus + " " + "123" + ") (Group " + "45.67" + "))"
         == "(* (- 123) (Group 45.67))"
  {
  }

  /** The rendering does not determine the node kind: a grouping and a unary
      node whose operator's lexeme is `Group` render identically. */
  lemma GroupingAndUnaryCollide(inner: Expr, operator: Token)
    requires operator.lexeme == "Group"
    ensures Grouping(inner) != Unary(operator, inner)
    ensures Print(Grouping(inner)) == Print(Unary(operator, inner))
  {
    PrintGrouping(inner);
    PrintUnary(operator, inner);
  }

  // ---------------------------------------------------------------------------
  // Parentheses in a rendering are balanced.

  function Step(c: char): int {
    if c == '(' then 1 else if c == ')' then -1 else 0
  }

  /** Opening minus closing parentheses in `s`. */
  function Net(s: string): int {
    if s == [] then 0 else Net(s[..|s| - 1]) + Step(s[|s| - 1])
  }

  function Min(a: int, b: int): int {
    if a <= b then a else b
  }

  /** The least value of `Net` over all prefixes of `s`, the empty one included. */
  function MinNet(s: string): (m: int)
    ensures m <= 0 && m <= Net(s)
  {
    if s == [] then 0 else Min(MinNet(s[..|s| - 1]), Net(s))
  }

  /** Every closing parenthesis closes an earlier opening one, and all are closed. */
  predicate Balanced(s: string) {
    Net(s) == 0 && MinNet(s) == 0
  }

  /** Text without parentheses. */
  predicate Plain(s: string) {
    forall i :: 0 <= i < |s| ==> s[i] != '(' && s[i] != ')'
  }

  /** No literal text and no operator lexeme in the tree contains a parenthesis. */
  predicate AtomsPlain(e: Expr) {
    match e
    case Binary(left, operator, right) => Plain(operator.lexeme) && AtomsPlain(left) && AtomsPlain(right)
    case Grouping(inner) => AtomsPlain(inner)
    case Literal(value) => Plain(value.GetOr("nil"))
    case Unary(operator, right) => Plain(operator.lexeme) && AtomsPlain(right)
  }

  lemma {:induction false} NetConcat(a: string, b: string)
    ensures Net(a + b) == Net(a) + Net(b)
    ensures MinNet(a + b) == Min(MinNet(a), Net(a) + MinNet(b))
    decreases |b|
  {
    if b == [] {
      assert a + b == a;
    } else {
      var b' := b[..|b| - 1];
      assert (a + b)[..|a + b| - 1] == a + b';
      NetConcat(a, b');
    }
  }

  lemma {:induction false} PlainIsBalanced(s: string)
    requires Plain(s)
    ensures Balanced(s)
    decreases |s|
  {
    if s != [] {
      PlainIsBalanced(s[..|s| - 1]);
    }
  }

  /** Under `AtomsPlain`, a rendering is balanced, and for every node other
      than a literal the first parenthesis is closed by the last character. */
  lemma {:induction false} PrintBalanced(e: Expr)
    requires AtomsPlain(e)
    ensures Balanced(Print(e))
    ensures !e.Literal? ==> Balanced(Print(e)[1..|Print(e)| - 1])
    decreases Size(e), 0
  {
    match e
    case Literal(value) =>
      PlainIsBalanced(value.GetOr("nil"));
    case Binary(left, operator, right) =>
      SizeAllPair(left, right);
      ChildrenBalanced([left, right]);
      EnclosedBalanced(operator.lexeme, [left, right]);
    case Grouping(inner) =>
      SizeAllSingle(inner);
      ChildrenBalanced([inner]);
      assert Plain("Group");
      EnclosedBalanced("Group", [inner]);
    case Unary(operator, right) =>
      SizeAllSingle(right);
      ChildrenBalanced([right]);
      EnclosedBalanced(operator.lexeme, [right]);
  }

  lemma ParenCounts()
    ensures Net("(") == 1 && MinNet("(") == 0
    ensures Net(")") == -1 && MinNet(")") == -1
  {
    assert "("[..0] == [];
    assert ")"[..0] == [];
  }

  /** Wrapping balanced text in a pair of parentheses keeps it balanced. */
  lemma WrapBalanced(inner: string)
    requires Balanced(inner)
    ensures Balanced("(" + inner + ")")
  {
    ParenCounts();
    NetConcat("(", inner);
    NetConcat("(" + inner, ")");
  }

  lemma EnclosedBalanced(name: string, es: seq<Expr>)
    requires Plain(name) && Balanced(Children(es))
    ensures Balanced(Parenthesize(name, es))
    ensures var r := Parenthesize(name, es); Balanced(r[1..|r| - 1])
  {
    var inner := name + Children(es);
    PlainIsBalanced(name);
    NetConcat(name, Children(es));
    assert Balanced(inner);
    WrapBalanced(inner);
    var r := Parenthesize(name, es);
    assert r == "(" + inner + ")";
    assert r[1..|r| - 1] == inner;
  }

  lemma {:induction false} ChildrenBalanced(es: seq<Expr>)
    requires forall i :: 0 <= i < |es| ==> AtomsPlain(es[i])
    ensures Balanced(Children(es))
    decreases SizeAll(es), 1
  {
    if es != [] {
      var init, last := es[..|es| - 1], es[|es| - 1];
      ChildrenBalanced(init);
      PrintBalanced(last);
      assert Plain(" ");
      PlainIsBalanced(" ");
      NetConcat(Children(init), " ");
      NetConcat(Children(init) + " ", Print(last));
      assert Children(es) == Children(init) + " " + Print(last);
    }
  }
}
