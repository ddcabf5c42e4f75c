/** The calculator's expressions, and the ways to print one.  An expression is what is computed;
    a printing is a derivation of the grammar
        expr := term (('+'|'-') term)*    term := unary (('*'|'/') unary)*
        unary := '-' unary | primary      primary := NUM | '(' expr ')'
    with every pair of parentheses kept, so one expression has many printings. */
module Grammar {
  import opened Wrappers
  import opened Negabinary
  import opened Lexer

  datatype Expression =
    | Lit(text: string)
    | Neg(operand: Expression)
    | Bin(op: char, left: Expression, right: Expression)

  datatype Printing =
    | Literal(text: string)
    | Group(inner: Printing)
    | Minus(operand: Printing)
    | Infix(op: char, left: Printing, right: Printing)

  // ---------- the value of an expression ----------

  /** The quotient rounded toward minus infinity, the way floorDiv corrects the truncated one. */
  function FloorDiv(a: int, b: int): (q: int)
    requires b != 0
    ensures b > 0 ==> q * b <= a < q * b + b
    ensures b < 0 ==> q * b + b < a <= q * b
  {
    var q := TruncatedQuotient(a, b);
    TruncationError(a, b);
    if a - q * b != 0 && (a < 0) != (b < 0) then q - 1 else q
  }

  lemma TruncationError(a: int, b: int)
    requires b != 0
    ensures var r := a - TruncatedQuotient(a, b) * b;
            Abs(r) < Abs(b) && (r > 0 ==> a > 0) && (r < 0 ==> a < 0)
  {
    if a >= 0 {
      EuclideanPair(a, b);
    } else {
      EuclideanPair(-a, b);
      Negated((-a) / b, b);
    }
  }

  lemma EuclideanPair(m: nat, n: int)
    requires n != 0
    ensures 0 <= m - m / n * n < Abs(n) && (m == 0 ==> m - m / n * n == 0)
  {
    assert m == m / n * n + m % n;
  }

  lemma Negated(k: int, n: int)
    ensures (-k) * n == -(k * n)
  {
  }

  function Apply(op: char, a: int, b: int): Option<int> {
    if op == '+' then Some(a + b)
    else if op == '-' then Some(a - b)
    else if op == '*' then Some(a * b)
    else if b == 0 then None
    else Some(FloorDiv(a, b))
  }

  /** None when some division inside divides by zero. */
  function Evaluate(e: Expression): Option<int> {
    match e
    case Lit(text) => Some(Value(text))
    case Neg(x) => (match Evaluate(x) case Some(v) => Some(-v) case None => None)
    case Bin(op, l, r) =>
      match (Evaluate(l), Evaluate(r))
      case (Some(a), Some(b)) => Apply(op, a, b)
      case _ => None
  }

  // ---------- printings ----------

  predicate IsMultiplicative(op: char) { op == '*' || op == '/' }

  /** How tightly a printing binds: sum, product, unary minus, primary. */
  function Rank(t: Printing): nat {
    match t
    case Infix(op, _, _) => if IsMultiplicative(op) then 1 else 0
    case Minus(_) => 2
    case _ => 3
  }

  /** The derivations of the grammar: operators group to the left, unary minus takes a unary. */
  predicate Grammatical(t: Printing) {
    match t
    case Literal(text) => text != "" && AllDigits(text)
    case Group(x) => Grammatical(x)
    case Minus(x) => Grammatical(x) && Rank(x) >= 2
    case Infix(op, l, r) =>
      IsOperator(op) && Grammatical(l) && Grammatical(r) && Rank(l) >= Rank(t) && Rank(r) > Rank(t)
  }

  function Yield(t: Printing): (toks: seq<Token>)
    ensures toks != []
  {
    match t
    case Literal(text) => [Num(text)]
    case Group(x) => [LParen] + Yield(x) + [RParen]
    case Minus(x) => [Op('-')] + Yield(x)
    case Infix(op, l, r) => Yield(l) + [Op(op)] + Yield(r)
  }

  /** The expression a printing stands for: its parentheses forgotten. */
  function Erase(t: Printing): Expression {
    match t
    case Literal(text) => Lit(text)
    case Group(x) => Erase(x)
    case Minus(x) => Neg(Erase(x))
    case Infix(op, l, r) => Bin(op, Erase(l), Erase(r))
  }

  function Outcome(t: Printing): Option<int> { Evaluate(Erase(t)) }

  predicate WellFormedExpression(e: Expression) {
    match e
    case Lit(text) => text != "" && AllDigits(text)
    case Neg(x) => WellFormedExpression(x)
    case Bin(op, l, r) => IsOperator(op) && WellFormedExpression(l) && WellFormedExpression(r)
  }

  /** Parentheses only where the rank of an operand demands them. */
  function AtRank(t: Printing, rank: nat): Printing { if Rank(t) >= rank then t else Group(t) }

  function Print(e: Expression): Printing {
    match e
    case Lit(text) => Literal(text)
    case Neg(x) => Minus(AtRank(Print(x), 2))
    case Bin(op, l, r) =>
      var rank := if IsMultiplicative(op) then 1 else 0;
      Infix(op, AtRank(Print(l), rank), AtRank(Print(r), rank + 1))
  }

  /** Every expression has a grammatical printing that stands for it. */
  lemma {:induction false} PrintIsGrammatical(e: Expression)
    requires WellFormedExpression(e)
    ensures Grammatical(Print(e)) && Erase(Print(e)) == e
  {
    match e
    case Lit(_) =>
    case Neg(x) => PrintIsGrammatical(x);
    case Bin(_, l, r) => PrintIsGrammatical(l); PrintIsGrammatical(r);
  }
}
